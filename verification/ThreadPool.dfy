/** thread_pool_executor as a transition system: one step per atomic operation or section under a worker's lock,
    in any interleaving of the workers' threads, callers and the thread that shuts the pool down. */
module ThreadPool {
  import opened Slots

  /** Where a thread is in the work loop of its worker. */
  datatype Pc =
    | Top
    | Sleepy | Waiting | Woken | Found | TimedOut
    | Resuming | Resumed
    | Draining
    | Scanning(i: nat, count: nat, limit: nat)
    | Donating(pos: nat, begin: nat, end: nat, extra: nat)
    | Checking
    | Running(slot: Slot)
    | Leaving
    | Exited

  /** How far shutdown has come with a worker. */
  datatype Phase = Open | Flagged | Aborted | Announced | Notified | Joined | Cleared

  function Rank(p: Phase): nat {
    match p
    case Open => 0
    case Flagged => 1
    case Aborted => 2
    case Announced => 3
    case Notified => 4
    case Joined => 5
    case Cleared => 6
  }

  datatype Worker = Worker(
    own: seq<Slot>,           // m_private_queue
    list: seq<nat>,           // m_idle_worker_list
    atomicAbort: bool,        // m_atomic_abort
    queue: seq<Slot>,         // m_public_queue
    sem: nat,                 // m_semaphore
    pending: nat,             // enqueuers that have let go of the lock but not released the semaphore yet
    idle: bool,               // m_idle
    abort: bool,              // m_abort
    locked: bool,             // m_lock is held from one step to the next
    taskFound: bool,          // m_task_found_or_abort
    loops: seq<Pc>,           // every thread started for the worker, the one in m_thread last
    flag: bool,               // its flag in the idle worker set
    phase: Phase)

  datatype Pool = Pool(workers: seq<Worker>, stopping: bool, accepted: seq<Slot>, executed: seq<Slot>, discarded: seq<Slot>)

  function At(x: Worker, g: nat, pc: Pc): Worker
    requires g < |x.loops|
  {
    x.(loops := x.loops[g := pc])
  }

  function Last(x: Worker): Pc {
    if x.loops == [] then Exited else x.loops[|x.loops| - 1]
  }

  function Full1(ts: seq<nat>): seq<Slot> {
    seq(|ts|, i requires 0 <= i < |ts| => Full(ts[i]))
  }

  // ---------- the steps of one worker's loop ----------

  /** drain_queue up to the unlock: either there is work, or the worker is going, or it has to wait. */
  ghost predicate Enter(x: Worker, g: nat, y: Worker)
    requires g < |x.loops|
  {
    && !x.locked
    && y == if x.queue == [] && !x.abort then At(x, g, Sleepy)
            else if x.abort then At(x.(taskFound := false, idle := true), g, Exited)
            else At(x.(taskFound := false, own := x.queue, queue := x.own), g, Draining)
  }

  /** wait_for_task: the semaphore, or the deadline. */
  ghost predicate Wake(x: Worker, g: nat, y: Worker)
    requires g < |x.loops|
  {
    (x.sem > 0 && y == At(x.(sem := x.sem - 1), g, Woken)) || y == At(x, g, TimedOut)
  }

  /** wait_for_task: the second look at the queue, and what follows under the lock. */
  ghost predicate Recheck(x: Worker, g: nat, y: Worker)
    requires g < |x.loops|
  {
    && !x.locked
    && y == if x.queue == [] && !x.abort then At(x, g, Waiting)
            else if x.abort then At(x.(idle := true), g, Exited)
            else At(x.(locked := true), g, Resuming)
  }

  /** drain_queue after a wait. */
  ghost predicate TakeWork(x: Worker, g: nat, y: Worker)
    requires g < |x.loops|
  {
    y == if x.abort then At(x.(taskFound := false, idle := true, locked := false), g, Exited)
         else At(x.(taskFound := false, own := x.queue, queue := x.own, locked := false), g, Draining)
  }

  /** The end of the loop: m_idle is set under the lock. */
  ghost predicate Leave(x: Worker, g: nat, y: Worker)
    requires g < |x.loops|
  {
    !x.locked && y == At(x.(idle := true), g, Exited)
  }

  /** drain_queue_impl and the beginning of balance_work. */
  ghost predicate Balance(x: Worker, g: nat, size: nat, y: Worker)
    requires g < |x.loops|
  {
    var n := |x.own|;
    && g < |y.loops| && y == At(x, g, y.loops[g])
    && if n == 0 then y.loops[g] == Top
       else if n < 2 || size <= 1 then y.loops[g] == Checking
       else y.loops[g].Scanning? && y.loops[g] == Scanning(0, 0, y.loops[g].limit) && y.loops[g].limit <= n - 1 && y.loops[g].limit <= size - 1
  }

  /** balance_work between the search for idle workers and the donation. */
  ghost predicate Split(x: Worker, g: nat, y: Worker)
    requires g < |x.loops|
  {
    var n, k := |x.own|, |x.list|;
    y == At(x, g, if k == 0 then Checking else Donating(0, 0, n / (k + 1), n - n / (k + 1) * (k + 1)))
  }

  /** balance_work at its end: what has been donated goes. */
  ghost predicate Erase(x: Worker, g: nat, begin: nat, y: Worker)
    requires g < |x.loops|
  {
    begin <= |x.own| && y == At(x.(own := x.own[begin..], list := []), g, Checking)
  }

  /** drain_queue_impl: the last task is taken, unless the worker is to abort. */
  ghost predicate Pop(x: Worker, g: nat, y: Worker)
    requires g < |x.loops|
  {
    if x.atomicAbort then y == At(x, g, Leaving)
    else |x.own| > 0 && y == At(x.(own := x.own[..|x.own| - 1]), g, Running(x.own[|x.own| - 1]))
  }

  ghost predicate MarkIdle(x: Worker, g: nat, y: Worker)
    requires g < |x.loops|
  {
    y == At(x.(flag := true), g, Waiting)
  }

  ghost predicate CheckFlag(x: Worker, g: nat, y: Worker)
    requires g < |x.loops|
  {
    y == At(x, g, if x.taskFound then Found else Waiting)
  }

  ghost predicate MarkActive(x: Worker, g: nat, y: Worker)
    requires g < |x.loops|
  {
    y == At(x.(flag := false), g, Resumed)
  }

  ghost predicate Ran(x: Worker, g: nat, y: Worker)
    requires g < |x.loops|
  {
    y == At(x, g, Draining)
  }

  /** A step of a loop that touches no other worker; `done` is what has been executed. */
  ghost predicate LoopStep(x: Worker, g: nat, size: nat, done: seq<Slot>, y: Worker)
    requires g < |x.loops|
  {
    && done == (if x.loops[g].Running? then [x.loops[g].slot] else [])
    && match x.loops[g]
       case Top => Enter(x, g, y)
       case Sleepy => MarkIdle(x, g, y)
       case Waiting => Wake(x, g, y)
       case Woken => CheckFlag(x, g, y)
       case Found => Recheck(x, g, y)
       case TimedOut => Leave(x, g, y)
       case Resuming => MarkActive(x, g, y)
       case Resumed => TakeWork(x, g, y)
       case Draining => Balance(x, g, size, y)
       case Scanning(i, count, limit) => (i >= size || count >= limit) && Split(x, g, y)
       case Donating(pos, begin, _, _) => pos >= |x.list| && Erase(x, g, begin, y)
       case Checking => Pop(x, g, y)
       case Running(_) => Ran(x, g, y)
       case Leaving => Leave(x, g, y)
       case Exited => false
  }

  // ---------- the steps that meet at a worker ----------

  /** enqueue_foreign and ensure_worker_active, on a worker that has not been told to abort. */
  function Accept(x: Worker, slots: seq<Slot>): Worker {
    var y := x.(taskFound := true, queue := x.queue + slots);
    if x.idle then y.(loops := x.loops + [Top], idle := false)
    else if x.queue == [] then y.(pending := x.pending + 1)
    else y
  }

  /** thread_pool_worker::shutdown, one phase at a time. */
  ghost predicate StopStep(x: Worker, dropped: seq<Slot>, y: Worker) {
    match x.phase
    case Joined => !x.locked && dropped == x.queue + x.own && y == x.(queue := [], own := [], phase := Cleared)
    case Cleared => false
    case _ => dropped == [] && Signal(x, y)
  }

  ghost predicate Signal(x: Worker, y: Worker) {
    match x.phase
    case Open => y == x.(atomicAbort := true, phase := Flagged)
    case Flagged => !x.locked && y == x.(abort := true, phase := Aborted)
    case Aborted => y == x.(taskFound := true, phase := Announced)
    case Announced => y == x.(sem := x.sem + 1, phase := Notified)
    case Notified => Last(x) == Exited && y == x.(phase := Joined)
    case _ => false
  }

  datatype Step =
    | Enqueue(w: nat, ts: seq<nat>)                     // from outside, on any worker
    | EnqueueLocal(w: nat, g: nat, ts: seq<nat>)        // by the task that runs on this worker
    | Acquire(w: nat)                                   // an enqueuer wins the worker's idle flag
    | Release(w: nat)                                   // an enqueuer releases the semaphore
    | Loop(w: nat, g: nat, done: seq<Slot>)
    | Scan(w: nat, g: nat)
    | Donate(w: nat, g: nat)
    | Shutdown
    | Stop(w: nat, dropped: seq<Slot>)

  ghost predicate IsLoop(s: Pool, w: nat, g: nat) {
    w < |s.workers| && g < |s.workers[w].loops|
  }

  /** One round of the search for idle workers. */
  ghost predicate ScanStep(s: Pool, w: nat, g: nat, t: Pool)
    requires IsLoop(s, w, g)
  {
    var x, size := s.workers[w], |s.workers|;
    match x.loops[g]
    case Scanning(i, count, limit) =>
      && i < size && count < limit
      && var index := (w + i) % size;
         t == if index == w || !s.workers[index].flag
              then s.(workers := s.workers[w := At(x, g, Scanning(i + 1, count, limit))])
              else s.(workers := s.workers[index := s.workers[index].(flag := false)]
                                          [w := At(x.(list := x.list + [index]), g, Scanning(i + 1, count + 1, limit))])
    case _ => false
  }

  /** What a donor keeps: the slots of the donated range are empty now. */
  function Given(own: seq<Slot>, begin: nat, end: nat): seq<Slot>
    requires begin <= end <= |own|
  {
    own[..begin] + Empty(end - begin) + own[end..]
  }

  /** The donor after one range has been accepted. */
  function Donor(x: Worker, g: nat): Worker
    requires g < |x.loops| && x.loops[g].Donating?
    requires x.loops[g].begin <= CutEnd(x.loops[g]) <= |x.own|
  {
    var pc, end := x.loops[g], CutEnd(x.loops[g]);
    At(x.(own := Given(x.own, pc.begin, end)), g,
       Donating(pc.pos + 1, end, end + |x.own| / (|x.list| + 1), if pc.extra != 0 then pc.extra - 1 else 0))
  }

  function CutEnd(pc: Pc): nat
    requires pc.Donating?
  {
    if pc.extra != 0 then pc.end + 1 else pc.end
  }

  /** One round of the donation loop; a worker that is shutting down refuses, which ends the donor's loop. */
  ghost predicate DonateStep(s: Pool, w: nat, g: nat, t: Pool)
    requires IsLoop(s, w, g)
  {
    var x := s.workers[w];
    && x.loops[g].Donating? && x.loops[g].pos < |x.list| && x.list[x.loops[g].pos] < |s.workers|
    && var j := x.list[x.loops[g].pos];
       && !s.workers[j].locked
       && if s.workers[j].abort then t == s.(workers := s.workers[w := At(x, g, Leaving)])
          else
            && x.loops[g].begin <= CutEnd(x.loops[g]) <= |x.own|
            && t == s.(workers := s.workers[j := Accept(s.workers[j], x.own[x.loops[g].begin..CutEnd(x.loops[g])])][w := Donor(x, g)])
  }

  ghost predicate Next(s: Pool, step: Step, t: Pool) {
    match step
    case Enqueue(w, ts) =>
      && w < |s.workers| && !s.workers[w].locked && !s.workers[w].abort
      && t == s.(workers := s.workers[w := Accept(s.workers[w], Full1(ts))], accepted := s.accepted + Full1(ts))
    case EnqueueLocal(w, g, ts) =>
      && IsLoop(s, w, g) && s.workers[w].loops[g].Running? && !s.workers[w].atomicAbort
      && t == s.(workers := s.workers[w := s.workers[w].(own := s.workers[w].own + Full1(ts))], accepted := s.accepted + Full1(ts))
    case Acquire(w) => w < |s.workers| && s.workers[w].flag && t == s.(workers := s.workers[w := s.workers[w].(flag := false)])
    case Release(w) =>
      && w < |s.workers| && s.workers[w].pending > 0
      && t == s.(workers := s.workers[w := s.workers[w].(pending := s.workers[w].pending - 1, sem := s.workers[w].sem + 1)])
    case Loop(w, g, done) =>
      && IsLoop(s, w, g) && |t.workers| == |s.workers|
      && LoopStep(s.workers[w], g, |s.workers|, done, t.workers[w])
      && t == s.(workers := s.workers[w := t.workers[w]], executed := s.executed + done)
    case Scan(w, g) => IsLoop(s, w, g) && ScanStep(s, w, g, t)
    case Donate(w, g) => IsLoop(s, w, g) && DonateStep(s, w, g, t)
    case Shutdown => !s.stopping && t == s.(stopping := true)
    case Stop(w, dropped) =>
      && s.stopping && w < |s.workers| == |t.workers| && (w == 0 || s.workers[w - 1].phase == Cleared)
      && StopStep(s.workers[w], dropped, t.workers[w])
      && t == s.(workers := s.workers[w := t.workers[w]], discarded := s.discarded + dropped)
  }

  function NewWorker(): Worker {
    Worker([], [], false, [], 0, 0, true, false, false, false, [], true, Open)
  }

  ghost predicate Init(s: Pool) {
    && s.workers != [] && (forall w :: 0 <= w < |s.workers| ==> s.workers[w] == NewWorker())
    && !s.stopping && s.accepted == [] && s.executed == [] && s.discarded == []
  }

  /** A run of the pool, state by state. */
  ghost predicate IsRun(run: seq<Pool>, steps: seq<Step>) {
    && |run| == |steps| + 1 && Init(run[0])
    && forall i :: 0 <= i < |steps| ==> Next(run[i], steps[i], run[i + 1])
  }

  // ---------- what every step keeps at one worker ----------

  /** At most one thread is in the loop, the one in m_thread, and m_idle tells whether it is. */
  ghost predicate Owned(x: Worker) {
    (forall g :: 0 <= g < |x.loops| - 1 ==> x.loops[g] == Exited) && x.idle == (Last(x) == Exited)
  }

  ghost predicate Asleep(pc: Pc) {
    pc == Sleepy || pc == Waiting
  }

  /** A sleeping worker with something to do has a wake-up on its way, and finds the flag set when it comes. */
  ghost predicate Wakeable(x: Worker) {
    && (x.locked <==> Last(x) == Resuming || Last(x) == Resumed) && (x.locked ==> !x.abort && x.queue != [])
    && ((Asleep(Last(x)) || Last(x) == Woken || Last(x) == Found) && x.queue != [] ==> x.taskFound)
    && (Asleep(Last(x)) && x.queue != [] ==> x.sem + x.pending > 0)
  }

  ghost predicate Phased(x: Worker) {
    && (x.atomicAbort <==> Rank(x.phase) >= 1) && (x.abort <==> Rank(x.phase) >= 2)
    && (Rank(x.phase) >= 3 && Last(x) != Exited ==> x.taskFound)
    && (Rank(x.phase) >= 4 && Asleep(Last(x)) ==> x.sem > 0)
    && (Rank(x.phase) >= 5 ==> Last(x) == Exited)
    && (Rank(x.phase) >= 6 ==> x.own == [] && x.queue == [])
  }

  /** The donation loop: `pos` ranges have been cut, up to `begin`; what is left suffices for the others and the donor. */
  ghost predicate Cutting(n: nat, k: nat, pos: nat, begin: nat, end: nat, extra: nat) {
    Cut(n, k, n / (k + 1), pos, begin, end, extra)
  }

  ghost predicate Cut(n: nat, k: nat, q: nat, pos: nat, begin: nat, end: nat, extra: nat) {
    pos <= k && end == begin + q && extra <= k - pos && begin + (k - pos) * q + q + extra == n
  }

  /** Somebody from place `p` of the list on is shutting down. */
  ghost predicate AbortedFrom(list: seq<nat>, p: nat, aborted: set<nat>) {
    exists i :: p <= i < |list| && list[i] in aborted
  }

  /** The list of idle workers holds more than was found for this donation only if one of them refuses it. */
  ghost predicate Balanced(x: Worker, self: nat, size: nat, aborted: set<nat>) {
    && (forall i :: 0 <= i < |x.list| ==> x.list[i] < size && x.list[i] != self)
    && match Last(x)
       case Scanning(i, count, limit) =>
         limit <= |x.own| - 1 && count <= limit && (|x.list| == count || AbortedFrom(x.list, 0, aborted))
       case Donating(pos, begin, end, extra) =>
         && Cutting(|x.own|, |x.list|, pos, begin, end, extra) && begin <= |x.own| && x.own[..begin] == Empty(begin)
         && (|x.list| <= |x.own| - 1 || AbortedFrom(x.list, pos, aborted))
       case Checking => x.own != [] && (x.list == [] || AbortedFrom(x.list, 0, aborted))
       case _ => x.list == [] || AbortedFrom(x.list, 0, aborted)
  }

  /** As long as the pool is not shut down: empty tasks are found only behind a donation in progress, and a loop that
      waits or has ended has left nothing in the private queue. */
  ghost predicate Tidy(x: Worker) {
    && AllFull(x.queue) && x.phase == Open
    && match Last(x)
       case Scanning(_, count, _) => AllFull(x.own) && |x.list| == count
       case Donating(_, begin, _, _) =>
         begin <= |x.own| && AllFull(x.own[begin..]) && |x.list| <= |x.own| - 1
       case Draining => AllFull(x.own) && x.list == []
       case Checking => AllFull(x.own) && x.list == []
       case Running(slot) => slot.Full? && AllFull(x.own) && x.list == []
       case Leaving => false
       case _ => x.own == [] && x.list == []
  }

  ghost predicate Good(x: Worker, self: nat, size: nat, aborted: set<nat>, stopping: bool) {
    Owned(x) && Wakeable(x) && Phased(x) && Balanced(x, self, size, aborted) && (!stopping ==> Tidy(x))
  }

  ghost function AbortedSet(s: Pool): set<nat> {
    set w: nat | w < |s.workers| && s.workers[w].abort
  }

  ghost predicate Inv(s: Pool) {
    && s.workers != []
    && forall w :: 0 <= w < |s.workers| ==> Good(s.workers[w], w, |s.workers|, AbortedSet(s), s.stopping)
  }

  lemma Latest(x: Worker, g: nat)
    requires Owned(x) && g < |x.loops| && x.loops[g] != Exited
    ensures g == |x.loops| - 1 && Last(x) == x.loops[g] && !x.idle
  {}

  /** The loop goes on to `pc`. */
  lemma MovesTo(x: Worker, y: Worker, g: nat, pc: Pc)
    requires Owned(x) && g < |x.loops| && x.loops[g] != Exited && y.loops == x.loops[g := pc]
    requires y.idle == (pc == Exited)
    ensures Owned(y) && Last(y) == pc
  {
    Latest(x, g);
  }

  lemma NoSlots()
    ensures AllFull([])
  {}

  /** Asleep or on the way to sleep or to work: nothing is in the middle of anything. */
  ghost predicate Resting(pc: Pc) {
    match pc
    case Top => true
    case Sleepy => true
    case Waiting => true
    case Woken => true
    case Found => true
    case TimedOut => true
    case Resuming => true
    case Resumed => true
    case Exited => true
    case _ => false
  }

  lemma RestKeeps(x: Worker, self: nat, size: nat, aborted: set<nat>, stopping: bool, y: Worker)
    requires Balanced(x, self, size, aborted) && (!stopping ==> Tidy(x)) && Resting(Last(x)) && Resting(Last(y))
    requires y.own == x.own && y.list == x.list && y.queue == x.queue && y.phase == x.phase
    ensures Balanced(y, self, size, aborted) && (!stopping ==> Tidy(y))
  {
    hide AllFull, AbortedFrom, Cutting, Last;
  }

  /** The swap of the queues. */
  lemma TakeKeeps(x: Worker, self: nat, size: nat, aborted: set<nat>, stopping: bool, y: Worker)
    requires Balanced(x, self, size, aborted) && (!stopping ==> Tidy(x)) && Resting(Last(x)) && Last(y) == Draining
    requires y.own == x.queue && y.list == x.list && y.queue == x.own && y.phase == x.phase
    ensures Balanced(y, self, size, aborted) && (!stopping ==> Tidy(y))
  {
    hide AllFull, AbortedFrom, Cutting, Last;
    NoSlots();
  }

  lemma EnterKeeps(x: Worker, g: nat, self: nat, size: nat, aborted: set<nat>, stopping: bool, y: Worker)
    requires Good(x, self, size, aborted, stopping) && g < |x.loops| && x.loops[g] == Top && Enter(x, g, y)
    ensures Good(y, self, size, aborted, stopping) && y.abort == x.abort
  {
    hide AllFull, AbortedFrom, Balanced, Tidy;
    Latest(x, g);
    MovesTo(x, y, g, y.loops[g]);
    if Last(y) == Draining {
      TakeKeeps(x, self, size, aborted, stopping, y);
    } else {
      RestKeeps(x, self, size, aborted, stopping, y);
    }
  }

  lemma MarkIdleKeeps(x: Worker, g: nat, self: nat, size: nat, aborted: set<nat>, stopping: bool, y: Worker)
    requires Good(x, self, size, aborted, stopping) && g < |x.loops| && x.loops[g] == Sleepy && MarkIdle(x, g, y)
    ensures Good(y, self, size, aborted, stopping) && y.abort == x.abort
  {
    hide AllFull, AbortedFrom, Balanced, Tidy;
    Latest(x, g);
    MovesTo(x, y, g, y.loops[g]);
    RestKeeps(x, self, size, aborted, stopping, y);
  }

  lemma WakeKeeps(x: Worker, g: nat, self: nat, size: nat, aborted: set<nat>, stopping: bool, y: Worker)
    requires Good(x, self, size, aborted, stopping) && g < |x.loops| && x.loops[g] == Waiting && Wake(x, g, y)
    ensures Good(y, self, size, aborted, stopping) && y.abort == x.abort
  {
    hide AllFull, AbortedFrom, Balanced, Tidy;
    Latest(x, g);
    MovesTo(x, y, g, y.loops[g]);
    RestKeeps(x, self, size, aborted, stopping, y);
  }

  lemma CheckFlagKeeps(x: Worker, g: nat, self: nat, size: nat, aborted: set<nat>, stopping: bool, y: Worker)
    requires Good(x, self, size, aborted, stopping) && g < |x.loops| && x.loops[g] == Woken && CheckFlag(x, g, y)
    ensures Good(y, self, size, aborted, stopping) && y.abort == x.abort
  {
    hide AllFull, AbortedFrom, Balanced, Tidy;
    Latest(x, g);
    MovesTo(x, y, g, y.loops[g]);
    RestKeeps(x, self, size, aborted, stopping, y);
  }

  lemma RecheckKeeps(x: Worker, g: nat, self: nat, size: nat, aborted: set<nat>, stopping: bool, y: Worker)
    requires Good(x, self, size, aborted, stopping) && g < |x.loops| && x.loops[g] == Found && Recheck(x, g, y)
    ensures Good(y, self, size, aborted, stopping) && y.abort == x.abort
  {
    hide AllFull, AbortedFrom, Balanced, Tidy;
    Latest(x, g);
    MovesTo(x, y, g, y.loops[g]);
    RestKeeps(x, self, size, aborted, stopping, y);
  }

  lemma GiveUpKeeps(x: Worker, g: nat, self: nat, size: nat, aborted: set<nat>, stopping: bool, y: Worker)
    requires Good(x, self, size, aborted, stopping) && g < |x.loops| && x.loops[g] == TimedOut && Leave(x, g, y)
    ensures Good(y, self, size, aborted, stopping) && y.abort == x.abort
  {
    hide AllFull, AbortedFrom, Balanced, Tidy;
    Latest(x, g);
    MovesTo(x, y, g, y.loops[g]);
    RestKeeps(x, self, size, aborted, stopping, y);
  }

  lemma MarkActiveKeeps(x: Worker, g: nat, self: nat, size: nat, aborted: set<nat>, stopping: bool, y: Worker)
    requires Good(x, self, size, aborted, stopping) && g < |x.loops| && x.loops[g] == Resuming && MarkActive(x, g, y)
    ensures Good(y, self, size, aborted, stopping) && y.abort == x.abort
  {
    hide AllFull, AbortedFrom, Balanced, Tidy;
    Latest(x, g);
    MovesTo(x, y, g, y.loops[g]);
    RestKeeps(x, self, size, aborted, stopping, y);
  }

  lemma TakeWorkKeeps(x: Worker, g: nat, self: nat, size: nat, aborted: set<nat>, stopping: bool, y: Worker)
    requires Good(x, self, size, aborted, stopping) && g < |x.loops| && x.loops[g] == Resumed && TakeWork(x, g, y)
    ensures Good(y, self, size, aborted, stopping) && y.abort == x.abort
  {
    hide AllFull, AbortedFrom, Balanced, Tidy;
    Latest(x, g);
    MovesTo(x, y, g, y.loops[g]);
    TakeKeeps(x, self, size, aborted, stopping, y);
  }

  lemma FirstCut(n: nat, k: nat)
    ensures Cutting(n, k, 0, 0, n / (k + 1), n - n / (k + 1) * (k + 1))
  {
    var q := n / (k + 1);
    assert q * (k + 1) == k * q + q;
    assert n - q * (k + 1) == n % (k + 1);
  }

  lemma LastCut(n: nat, k: nat, pos: nat, begin: nat, end: nat, extra: nat)
    requires Cutting(n, k, pos, begin, end, extra) && pos >= k
    ensures n - begin == n / (k + 1) && begin <= n && (k < n ==> begin < n)
  {
    if k < n {
      assert n / (k + 1) >= 1;
    }
  }

  lemma OneLess(a: nat, q: nat)
    ensures (a + 1) * q == a * q + q && a * q >= 0
  {}

  lemma NextCut(n: nat, k: nat, q: nat, pos: nat, begin: nat, end0: nat, extra: nat)
    requires Cut(n, k, q, pos, begin, end0, extra) && pos < k
    ensures var end := if extra != 0 then end0 + 1 else end0;
            begin <= end <= n && Cut(n, k, q, pos + 1, end, end + q, if extra != 0 then extra - 1 else 0)
  {
    OneLess(k - pos - 1, q);
  }

  lemma BalanceKeeps(x: Worker, g: nat, self: nat, size: nat, aborted: set<nat>, stopping: bool, y: Worker)
    requires Good(x, self, size, aborted, stopping) && g < |x.loops| && x.loops[g] == Draining && Balance(x, g, size, y)
    ensures Good(y, self, size, aborted, stopping) && y.abort == x.abort
  {
    hide Cutting, AllFull, AbortedFrom;
    Latest(x, g);
    MovesTo(x, y, g, y.loops[g]);
  }

  lemma SplitKeeps(x: Worker, g: nat, self: nat, size: nat, aborted: set<nat>, stopping: bool, y: Worker)
    requires Good(x, self, size, aborted, stopping) && g < |x.loops| && x.loops[g].Scanning? && Split(x, g, y)
    ensures Good(y, self, size, aborted, stopping) && y.abort == x.abort
  {
    hide Cutting, AllFull;
    Latest(x, g);
    MovesTo(x, y, g, y.loops[g]);
    FirstCut(|x.own|, |x.list|);
  }

  lemma EraseKeeps(x: Worker, g: nat, self: nat, size: nat, aborted: set<nat>, stopping: bool, y: Worker)
    requires Good(x, self, size, aborted, stopping) && g < |x.loops| && x.loops[g].Donating? && x.loops[g].pos >= |x.list| && Erase(x, g, x.loops[g].begin, y)
    ensures Good(y, self, size, aborted, stopping) && y.abort == x.abort
  {
    hide Cutting, AllFull;
    Latest(x, g);
    MovesTo(x, y, g, y.loops[g]);
    LastCut(|x.own|, |x.list|, x.loops[g].pos, x.loops[g].begin, x.loops[g].end, x.loops[g].extra);
  }

  lemma PopKeeps(x: Worker, g: nat, self: nat, size: nat, aborted: set<nat>, stopping: bool, y: Worker)
    requires Good(x, self, size, aborted, stopping) && g < |x.loops| && x.loops[g] == Checking && Pop(x, g, y)
    ensures Good(y, self, size, aborted, stopping) && y.abort == x.abort
  {
    hide Cutting;
    Latest(x, g);
    MovesTo(x, y, g, y.loops[g]);
  }

  lemma RanKeeps(x: Worker, g: nat, self: nat, size: nat, aborted: set<nat>, stopping: bool, y: Worker)
    requires Good(x, self, size, aborted, stopping) && g < |x.loops| && x.loops[g].Running? && Ran(x, g, y)
    ensures Good(y, self, size, aborted, stopping) && y.abort == x.abort
  {
    hide Cutting, AllFull;
    Latest(x, g);
    MovesTo(x, y, g, y.loops[g]);
  }

  lemma LeaveKeeps(x: Worker, g: nat, self: nat, size: nat, aborted: set<nat>, stopping: bool, y: Worker)
    requires Good(x, self, size, aborted, stopping) && g < |x.loops| && x.loops[g] == Leaving && Leave(x, g, y)
    ensures Good(y, self, size, aborted, stopping) && y.abort == x.abort
  {
    hide Cutting, AllFull;
    Latest(x, g);
    MovesTo(x, y, g, y.loops[g]);
  }

  lemma AcceptKeeps(x: Worker, self: nat, size: nat, aborted: set<nat>, stopping: bool, slots: seq<Slot>)
    requires Good(x, self, size, aborted, stopping) && !x.abort && !x.locked && (!stopping ==> AllFull(slots))
    ensures Good(Accept(x, slots), self, size, aborted, stopping)
  {
    hide Cutting, AbortedFrom;
    if !stopping { assert AllFull(x.queue + slots); }
    hide AllFull;
  }

  lemma StopKeeps(x: Worker, self: nat, size: nat, aborted: set<nat>, dropped: seq<Slot>, y: Worker)
    requires Good(x, self, size, aborted, true) && StopStep(x, dropped, y)
    ensures Good(y, self, size, aborted, true)
  {
    hide Cutting, AllFull, AbortedFrom, Tidy, Balanced;
    StopFrame(x, dropped, y);
    StopBalanced(x, self, size, aborted, y);
    if Rank(x.phase) < 3 { StopBegins(x, dropped, y); } else { StopEnds(x, dropped, y); }
  }

  lemma StopFrame(x: Worker, dropped: seq<Slot>, y: Worker)
    requires Phased(x) && StopStep(x, dropped, y)
    ensures y.loops == x.loops && y.list == x.list && (y.own == x.own || Last(x) == Exited) && y.idle == x.idle
  {
    hide Last;
  }

  lemma StopBalanced(x: Worker, self: nat, size: nat, aborted: set<nat>, y: Worker)
    requires Balanced(x, self, size, aborted)
    requires y.loops == x.loops && y.list == x.list && (y.own == x.own || Last(x) == Exited)
    ensures Balanced(y, self, size, aborted)
  {
    hide Cutting, AbortedFrom;
  }

  lemma StopBegins(x: Worker, dropped: seq<Slot>, y: Worker)
    requires Wakeable(x) && Phased(x) && StopStep(x, dropped, y) && Rank(x.phase) < 3
    ensures Wakeable(y) && Phased(y)
  {
    assert Last(y) == Last(x);
    hide Last;
  }

  lemma StopEnds(x: Worker, dropped: seq<Slot>, y: Worker)
    requires Wakeable(x) && Phased(x) && StopStep(x, dropped, y) && Rank(x.phase) >= 3
    ensures Wakeable(y) && Phased(y)
  {
    assert Last(y) == Last(x);
    hide Last;
  }

  lemma MoreAborted(x: Worker, self: nat, size: nat, aborted: set<nat>, more: set<nat>, stopping: bool)
    requires Good(x, self, size, aborted, stopping) && aborted <= more
    ensures Good(x, self, size, more, stopping)
  {
    hide Cutting;
  }

  lemma LoopKeeps(x: Worker, g: nat, self: nat, size: nat, aborted: set<nat>, stopping: bool, done: seq<Slot>, y: Worker)
    requires Good(x, self, size, aborted, stopping) && g < |x.loops| && LoopStep(x, g, size, done, y)
    ensures Good(y, self, size, aborted, stopping) && y.abort == x.abort
  {
    hide Good, Enter, MarkIdle, Wake, CheckFlag, Recheck, MarkActive, TakeWork, Leave, Balance, Split, Erase, Pop, Ran;
    match x.loops[g]
    case Top => EnterKeeps(x, g, self, size, aborted, stopping, y);
    case Sleepy => MarkIdleKeeps(x, g, self, size, aborted, stopping, y);
    case Waiting => WakeKeeps(x, g, self, size, aborted, stopping, y);
    case Woken => CheckFlagKeeps(x, g, self, size, aborted, stopping, y);
    case Found => RecheckKeeps(x, g, self, size, aborted, stopping, y);
    case TimedOut => GiveUpKeeps(x, g, self, size, aborted, stopping, y);
    case Resuming => MarkActiveKeeps(x, g, self, size, aborted, stopping, y);
    case Resumed => TakeWorkKeeps(x, g, self, size, aborted, stopping, y);
    case Draining => BalanceKeeps(x, g, self, size, aborted, stopping, y);
    case Scanning(_, _, _) => SplitKeeps(x, g, self, size, aborted, stopping, y);
    case Donating(_, _, _, _) => EraseKeeps(x, g, self, size, aborted, stopping, y);
    case Checking => PopKeeps(x, g, self, size, aborted, stopping, y);
    case Running(_) => RanKeeps(x, g, self, size, aborted, stopping, y);
    case Leaving => LeaveKeeps(x, g, self, size, aborted, stopping, y);
  }

  lemma FlagKeeps(x: Worker, self: nat, size: nat, aborted: set<nat>, stopping: bool)
    requires Good(x, self, size, aborted, stopping)
    ensures Good(x.(flag := false), self, size, aborted, stopping)
  {
    hide Cutting, AllFull, AbortedFrom;
  }

  lemma ReleaseKeeps(x: Worker, self: nat, size: nat, aborted: set<nat>, stopping: bool)
    requires Good(x, self, size, aborted, stopping) && x.pending > 0
    ensures Good(x.(pending := x.pending - 1, sem := x.sem + 1), self, size, aborted, stopping)
  {
    hide Cutting, AllFull, AbortedFrom;
  }

  lemma LocalKeeps(x: Worker, g: nat, self: nat, size: nat, aborted: set<nat>, stopping: bool, ts: seq<nat>)
    requires Good(x, self, size, aborted, stopping) && g < |x.loops| && x.loops[g].Running?
    ensures Good(x.(own := x.own + Full1(ts)), self, size, aborted, stopping)
  {
    hide Cutting, AbortedFrom;
    Latest(x, g);
    if !stopping { assert AllFull(x.own + Full1(ts)); }
    hide AllFull, Full1;
  }

  lemma SkipKeeps(x: Worker, g: nat, self: nat, size: nat, aborted: set<nat>, stopping: bool, i: nat, count: nat, limit: nat)
    requires Good(x, self, size, aborted, stopping) && g < |x.loops| && x.loops[g] == Scanning(i, count, limit)
    ensures Good(At(x, g, Scanning(i + 1, count, limit)), self, size, aborted, stopping)
  {
    hide Cutting, AllFull, AbortedFrom;
    Latest(x, g);
    MovesTo(x, At(x, g, Scanning(i + 1, count, limit)), g, Scanning(i + 1, count, limit));
  }

  lemma FoundKeeps(x: Worker, g: nat, self: nat, size: nat, aborted: set<nat>, stopping: bool, i: nat, count: nat, limit: nat, index: nat)
    requires Good(x, self, size, aborted, stopping) && g < |x.loops| && x.loops[g] == Scanning(i, count, limit)
    requires count < limit && index < size && index != self
    ensures Good(At(x.(list := x.list + [index]), g, Scanning(i + 1, count + 1, limit)), self, size, aborted, stopping)
  {
    hide Cutting, AllFull;
    Latest(x, g);
    MovesTo(x, At(x.(list := x.list + [index]), g, Scanning(i + 1, count + 1, limit)), g, Scanning(i + 1, count + 1, limit));
    if AbortedFrom(x.list, 0, aborted) {
      var j :| 0 <= j < |x.list| && x.list[j] in aborted;
      assert (x.list + [index])[j] in aborted;
    }
  }

  lemma RefusedKeeps(x: Worker, g: nat, self: nat, size: nat, aborted: set<nat>, stopping: bool)
    requires Good(x, self, size, aborted, stopping) && g < |x.loops| && x.loops[g].Donating? && stopping
    requires x.loops[g].pos < |x.list| && x.list[x.loops[g].pos] in aborted
    ensures Good(At(x, g, Leaving), self, size, aborted, stopping)
  {
    hide Cutting, AllFull;
    Latest(x, g);
    MovesTo(x, At(x, g, Leaving), g, Leaving);
  }

  lemma GivenTidy(own: seq<Slot>, begin: nat, end: nat)
    requires begin <= end <= |own| && AllFull(own[begin..])
    ensures AllFull(Given(own, begin, end)[end..]) && AllFull(own[begin..end])
  {}

  lemma GivenEmpty(own: seq<Slot>, begin: nat, end: nat)
    requires begin <= end <= |own| && own[..begin] == Empty(begin)
    ensures Given(own, begin, end)[..end] == Empty(end)
  {}

  lemma GivenSize(own: seq<Slot>, begin: nat, end: nat)
    requires begin <= end <= |own|
    ensures |Given(own, begin, end)| == |own|
  {}

  lemma DonorBalanced(x: Worker, g: nat, self: nat, size: nat, aborted: set<nat>)
    requires Owned(x) && Balanced(x, self, size, aborted) && g < |x.loops| && x.loops[g].Donating?
    requires x.loops[g].begin <= CutEnd(x.loops[g]) <= |x.own|
    requires x.loops[g].pos < |x.list| && x.list[x.loops[g].pos] !in aborted
    ensures Balanced(Donor(x, g), self, size, aborted)
  {
    hide AllFull, Given, Cut, Owned, Last, Empty;
    var pc, y := x.loops[g], Donor(x, g);
    Latest(x, g);
    MovesTo(x, y, g, y.loops[g]);
    GivenSize(x.own, pc.begin, CutEnd(pc));
    GivenEmpty(x.own, pc.begin, CutEnd(pc));
    NextCut(|x.own|, |x.list|, |x.own| / (|x.list| + 1), pc.pos, pc.begin, pc.end, pc.extra);
  }

  lemma DonorTidy(x: Worker, g: nat)
    requires Owned(x) && Tidy(x) && g < |x.loops| && x.loops[g].Donating?
    requires x.loops[g].begin <= CutEnd(x.loops[g]) <= |x.own|
    ensures Tidy(Donor(x, g)) && AllFull(x.own[x.loops[g].begin..CutEnd(x.loops[g])])
  {
    hide AllFull, Given, Owned, Last;
    var pc, y := x.loops[g], Donor(x, g);
    Latest(x, g);
    MovesTo(x, y, g, y.loops[g]);
    GivenSize(x.own, pc.begin, CutEnd(pc));
    GivenTidy(x.own, pc.begin, CutEnd(pc));
  }

  lemma DonorKeeps(x: Worker, g: nat, self: nat, size: nat, aborted: set<nat>, stopping: bool)
    requires Good(x, self, size, aborted, stopping) && g < |x.loops| && x.loops[g].Donating?
    requires x.loops[g].begin <= CutEnd(x.loops[g]) <= |x.own|
    requires x.loops[g].pos < |x.list| && x.list[x.loops[g].pos] !in aborted
    ensures Good(Donor(x, g), self, size, aborted, stopping) && (!stopping ==> AllFull(x.own[x.loops[g].begin..CutEnd(x.loops[g])]))
  {
    hide Balanced, Tidy, Given, AllFull;
    var y := Donor(x, g);
    Latest(x, g);
    MovesTo(x, y, g, y.loops[g]);
    DonorBalanced(x, g, self, size, aborted);
    if !stopping { DonorTidy(x, g); }
  }

  /** A range that has been cut lies in the private queue. */
  lemma CutsInside(x: Worker, g: nat, self: nat, size: nat, aborted: set<nat>, stopping: bool)
    requires Good(x, self, size, aborted, stopping) && g < |x.loops| && x.loops[g].Donating? && x.loops[g].pos < |x.list|
    ensures x.loops[g].begin <= CutEnd(x.loops[g]) <= |x.own| && x.list[x.loops[g].pos] < size && x.list[x.loops[g].pos] != self
    ensures |x.list| < |x.own| ==> x.loops[g].begin < CutEnd(x.loops[g])
  {
    hide Wakeable, Phased, Tidy, Cut;
    var pc := x.loops[g];
    Latest(x, g);
    NextCut(|x.own|, |x.list|, |x.own| / (|x.list| + 1), pc.pos, pc.begin, pc.end, pc.extra);
    CutsSome(x, g);
  }

  lemma CutsSome(x: Worker, g: nat)
    requires g < |x.loops| && x.loops[g].Donating?
    requires Cutting(|x.own|, |x.list|, x.loops[g].pos, x.loops[g].begin, x.loops[g].end, x.loops[g].extra)
    ensures |x.list| < |x.own| ==> x.loops[g].begin < CutEnd(x.loops[g])
  {
    if |x.list| < |x.own| {
      assert |x.own| / (|x.list| + 1) >= 1;
    }
  }

  // ---------- what every step keeps in the pool ----------

  lemma Among(s: Pool, w: nat)
    requires Inv(s) && w < |s.workers|
    ensures Good(s.workers[w], w, |s.workers|, AbortedSet(s), s.stopping)
  {
    hide Good;
  }

  /** One worker has changed. */
  lemma InvWith(s: Pool, w: nat, y: Worker, t: Pool)
    requires Inv(s) && w < |s.workers| && t.workers == s.workers[w := y] && t.stopping == s.stopping && (s.workers[w].abort ==> y.abort)
    requires Good(y, w, |s.workers|, AbortedSet(s), s.stopping)
    ensures Inv(t)
  {
    hide Good;
    assert AbortedSet(s) <= AbortedSet(t);
    forall v | 0 <= v < |t.workers| ensures Good(t.workers[v], v, |t.workers|, AbortedSet(t), t.stopping) {
      MoreAborted(t.workers[v], v, |t.workers|, AbortedSet(s), AbortedSet(t), t.stopping);
    }
  }

  /** Nobody refuses before the pool is shut down. */
  lemma NoneAborted(s: Pool, w: nat)
    requires Inv(s) && w < |s.workers| && s.workers[w].abort
    ensures s.stopping
  {
    hide Owned, Wakeable, Balanced;
    Among(s, w);
  }

  lemma ScanInv(s: Pool, w: nat, g: nat, t: Pool)
    requires Inv(s) && IsLoop(s, w, g) && ScanStep(s, w, g, t)
    ensures Inv(t)
  {
    hide Good, Inv;
    var x, size := s.workers[w], |s.workers|;
    Among(s, w);
    var i, count, limit := x.loops[g].i, x.loops[g].count, x.loops[g].limit;
    var index := (w + i) % size;
    if index == w || !s.workers[index].flag {
      SkipKeeps(x, g, w, size, AbortedSet(s), s.stopping, i, count, limit);
      InvWith(s, w, At(x, g, Scanning(i + 1, count, limit)), t);
    } else {
      Among(s, index);
      FlagKeeps(s.workers[index], index, size, AbortedSet(s), s.stopping);
      var m := s.(workers := s.workers[index := s.workers[index].(flag := false)]);
      InvWith(s, index, s.workers[index].(flag := false), m);
      Among(m, w);
      FoundKeeps(x, g, w, size, AbortedSet(m), s.stopping, i, count, limit, index);
      InvWith(m, w, At(x.(list := x.list + [index]), g, Scanning(i + 1, count + 1, limit)), t);
    }
  }

  lemma DonateInv(s: Pool, w: nat, g: nat, t: Pool)
    requires Inv(s) && IsLoop(s, w, g) && DonateStep(s, w, g, t)
    ensures Inv(t)
  {
    hide Good, Inv, Given, Accept, AllFull;
    var x, size := s.workers[w], |s.workers|;
    var pc := x.loops[g];
    Among(s, w);
    CutsInside(x, g, w, size, AbortedSet(s), s.stopping);
    var j := x.list[pc.pos];
    if s.workers[j].abort {
      NoneAborted(s, j);
      RefusedKeeps(x, g, w, size, AbortedSet(s), s.stopping);
      InvWith(s, w, At(x, g, Leaving), t);
    } else {
      var range := x.own[pc.begin..CutEnd(pc)];
      DonorKeeps(x, g, w, size, AbortedSet(s), s.stopping);
      Among(s, j);
      AcceptKeeps(s.workers[j], j, size, AbortedSet(s), s.stopping, range);
      var m := s.(workers := s.workers[j := Accept(s.workers[j], range)]);
      AcceptAbort(s.workers[j], range);
      InvWith(s, j, Accept(s.workers[j], range), m);
      DonorKeepsIn(s, j, w, g, m);
      InvWith(m, w, Donor(x, g), t);
    }
  }

  lemma AcceptAbort(x: Worker, slots: seq<Slot>)
    ensures Accept(x, slots).abort == x.abort
  {}

  lemma DonorKeepsIn(s: Pool, j: nat, w: nat, g: nat, m: Pool)
    requires IsLoop(s, w, g) && j < |s.workers| && s.workers[w].loops[g].Donating?
    requires s.workers[w].loops[g].begin <= CutEnd(s.workers[w].loops[g]) <= |s.workers[w].own|
    requires Good(Donor(s.workers[w], g), w, |s.workers|, AbortedSet(s), s.stopping)
    requires |m.workers| == |s.workers| && m.stopping == s.stopping
    requires forall v :: 0 <= v < |s.workers| ==> m.workers[v].abort == s.workers[v].abort
    ensures Good(Donor(s.workers[w], g), w, |m.workers|, AbortedSet(m), m.stopping)
  {
    hide Good;
    assert AbortedSet(m) == AbortedSet(s);
  }

  // ---------- where the tasks are ----------

  function Copies(q: seq<Slot>, t: nat): nat {
    if q == [] then 0 else Copies(q[..|q| - 1], t) + (if q[|q| - 1] == Full(t) then 1 else 0)
  }

  lemma {:induction false} CopiesConcat(a: seq<Slot>, b: seq<Slot>, t: nat)
    ensures Copies(a + b, t) == Copies(a, t) + Copies(b, t)
  {
    if b == [] {
      assert a + b == a;
    } else {
      assert (a + b)[..|a + b| - 1] == a + b[..|b| - 1];
      CopiesConcat(a, b[..|b| - 1], t);
    }
  }

  lemma {:induction false} CopiesEmpty(n: nat, t: nat)
    ensures Copies(Empty(n), t) == 0
  {
    if n > 0 {
      assert Empty(n)[..n - 1] == Empty(n - 1);
      CopiesEmpty(n - 1, t);
    }
  }

  lemma CopiesOne(slot: Slot, t: nat)
    ensures Copies([slot], t) == if slot == Full(t) then 1 else 0
  {
    assert [slot][..0] == [];
  }

  /** The copies of task `t` that a worker holds, the one being executed included. */
  function Held(x: Worker, t: nat): nat {
    Copies(x.own, t) + Copies(x.queue, t) + if Last(x) == Running(Full(t)) then 1 else 0
  }

  function TotalHeld(ws: seq<Worker>, n: nat, t: nat): nat
    requires n <= |ws|
  {
    if n == 0 then 0 else TotalHeld(ws, n - 1, t) + Held(ws[n - 1], t)
  }

  /** All places a task can be in. */
  function Places(s: Pool, t: nat): nat {
    TotalHeld(s.workers, |s.workers|, t) + Copies(s.executed, t) + Copies(s.discarded, t)
  }

  lemma {:induction false} TotalWith(ws: seq<Worker>, w: nat, y: Worker, n: nat, t: nat)
    requires w < |ws| && n <= |ws|
    ensures TotalHeld(ws[w := y], n, t) + (if w < n then Held(ws[w], t) else 0) == TotalHeld(ws, n, t) + if w < n then Held(y, t) else 0
  {
    hide Held;
    if n > 0 { TotalWith(ws, w, y, n - 1, t); }
  }

  /** Queues kept or swapped, and nothing running before or after. */
  lemma HeldSame(x: Worker, y: Worker, t: nat)
    requires (y.own == x.own && y.queue == x.queue) || (y.own == x.queue && y.queue == x.own)
    requires !Last(x).Running? && !Last(y).Running?
    ensures Held(y, t) == Held(x, t)
  {
    hide Last;
  }

  lemma EraseHeld(x: Worker, y: Worker, begin: nat, t: nat)
    requires begin <= |x.own| && x.own[..begin] == Empty(begin) && y.own == x.own[begin..] && y.queue == x.queue
    requires !Last(x).Running? && !Last(y).Running?
    ensures Held(y, t) == Held(x, t)
  {
    hide Last, Empty;
    CopiesEmpty(begin, t);
    CopiesConcat(x.own[..begin], x.own[begin..], t);
    assert x.own[..begin] + x.own[begin..] == x.own;
  }

  lemma Copies0(t: nat)
    ensures Copies([], t) == 0
  {}

  lemma Prefix(x: Worker, self: nat, size: nat, aborted: set<nat>)
    requires Balanced(x, self, size, aborted) && Last(x).Donating?
    ensures Last(x).begin <= |x.own| && x.own[..Last(x).begin] == Empty(Last(x).begin)
  {
    hide Cutting, AbortedFrom;
  }

  lemma RanHeld(x: Worker, g: nat, y: Worker, slot: Slot, t: nat)
    requires Owned(x) && g < |x.loops| && x.loops[g] == Running(slot) && Ran(x, g, y)
    ensures Held(x, t) == Held(y, t) + Copies([slot], t)
  {
    Latest(x, g);
    MovesTo(x, y, g, Draining);
    hide Last;
    CopiesOne(slot, t);
  }

  lemma PopHeld(x: Worker, y: Worker, t: nat)
    requires x.own != [] && y.own == x.own[..|x.own| - 1] && y.queue == x.queue
    requires !Last(x).Running? && Last(y) == Running(x.own[|x.own| - 1])
    ensures Held(x, t) == Held(y, t)
  {
    hide Last;
  }

  /** The step has kept the queues or swapped them, and taken no task; it ends the loop only for a reason. */
  ghost predicate Swapped(x: Worker, g: nat, y: Worker) {
    && |y.loops| == |x.loops| && g < |y.loops| && !y.loops[g].Running?
    && (y.loops[g] == Exited ==> x.abort || x.loops[g] == TimedOut || x.loops[g] == Leaving)
    && ((y.own == x.own && y.queue == x.queue) || (y.own == x.queue && y.queue == x.own))
  }

  lemma EnterFrame(x: Worker, g: nat, y: Worker)
    requires g < |x.loops| && Enter(x, g, y)
    ensures Swapped(x, g, y)
  {}

  lemma WakeFrame(x: Worker, g: nat, y: Worker)
    requires g < |x.loops| && Wake(x, g, y)
    ensures Swapped(x, g, y)
  {}

  lemma RecheckFrame(x: Worker, g: nat, y: Worker)
    requires g < |x.loops| && Recheck(x, g, y)
    ensures Swapped(x, g, y)
  {}

  lemma TakeFrame(x: Worker, g: nat, y: Worker)
    requires g < |x.loops| && TakeWork(x, g, y)
    ensures Swapped(x, g, y)
  {}

  lemma LeaveFrame(x: Worker, g: nat, y: Worker)
    requires g < |x.loops| && (x.loops[g] == TimedOut || x.loops[g] == Leaving) && Leave(x, g, y)
    ensures Swapped(x, g, y)
  {}

  lemma BalanceFrame(x: Worker, g: nat, size: nat, y: Worker)
    requires g < |x.loops| && Balance(x, g, size, y)
    ensures Swapped(x, g, y)
  {}

  lemma SplitFrame(x: Worker, g: nat, y: Worker)
    requires g < |x.loops| && Split(x, g, y)
    ensures Swapped(x, g, y)
  {}

  lemma EraseFrame(x: Worker, g: nat, begin: nat, y: Worker)
    requires g < |x.loops| && Erase(x, g, begin, y)
    ensures |y.loops| == |x.loops| && y.loops[g] == Checking && begin <= |x.own| && y.own == x.own[begin..] && y.queue == x.queue
  {}

  lemma PopFrame(x: Worker, g: nat, y: Worker)
    requires g < |x.loops| && Pop(x, g, y)
    ensures |y.loops| == |x.loops| && y.loops[g] != Exited && y.queue == x.queue
    ensures if y.loops[g].Running? then x.own != [] && y.own == x.own[..|x.own| - 1] && y.loops[g].slot == x.own[|x.own| - 1]
            else y.own == x.own
  {}

  lemma MarkIdleFrame(x: Worker, g: nat, y: Worker)
    requires g < |x.loops| && MarkIdle(x, g, y)
    ensures Swapped(x, g, y)
  {}

  lemma CheckFlagFrame(x: Worker, g: nat, y: Worker)
    requires g < |x.loops| && CheckFlag(x, g, y)
    ensures Swapped(x, g, y)
  {}

  lemma MarkActiveFrame(x: Worker, g: nat, y: Worker)
    requires g < |x.loops| && MarkActive(x, g, y)
    ensures Swapped(x, g, y)
  {}

  lemma SwappedHeld(x: Worker, g: nat, y: Worker, t: nat)
    requires Owned(x) && g < |x.loops| && x.loops[g] != Exited && !x.loops[g].Running? && Swapped(x, g, y)
    ensures Held(x, t) == Held(y, t) + Copies([], t)
  {
    hide Held;
    HeldSame(x, y, t);
  }

  lemma ErasedHeld(x: Worker, g: nat, self: nat, size: nat, aborted: set<nat>, y: Worker, t: nat)
    requires Owned(x) && Balanced(x, self, size, aborted) && g < |x.loops| && x.loops[g].Donating? && Erase(x, g, x.loops[g].begin, y)
    ensures Held(x, t) == Held(y, t) + Copies([], t)
  {
    hide Held, Balanced;
    Latest(x, g);
    Prefix(x, self, size, aborted);
    EraseHeld(x, y, x.loops[g].begin, t);
  }

  lemma PoppedHeld(x: Worker, g: nat, y: Worker, t: nat)
    requires Owned(x) && g < |x.loops| && x.loops[g] == Checking && Pop(x, g, y)
    ensures Held(x, t) == Held(y, t) + Copies([], t)
  {
    hide Held, Pop;
    Latest(x, g);
    PopFrame(x, g, y);
    if y.loops[g].Running? { PopHeld(x, y, t); } else { HeldSame(x, y, t); }
  }

  /** A loop that touches no other worker keeps what the worker holds, but for the task it has executed. */
  lemma LoopHeld(x: Worker, g: nat, self: nat, size: nat, aborted: set<nat>, done: seq<Slot>, y: Worker, t: nat)
    requires Owned(x) && Balanced(x, self, size, aborted) && g < |x.loops| && LoopStep(x, g, size, done, y)
    ensures Held(x, t) == Held(y, t) + Copies(done, t)
  {
    hide Held, Balanced, Copies, Owned, Swapped, Enter, MarkIdle, Wake, CheckFlag, Recheck, MarkActive, TakeWork, Leave, Balance, Split, Erase, Pop, Ran;
    match x.loops[g]
    case Top => EnterFrame(x, g, y); SwappedHeld(x, g, y, t);
    case Sleepy => MarkIdleFrame(x, g, y); SwappedHeld(x, g, y, t);
    case Waiting => WakeFrame(x, g, y); SwappedHeld(x, g, y, t);
    case Woken => CheckFlagFrame(x, g, y); SwappedHeld(x, g, y, t);
    case Found => RecheckFrame(x, g, y); SwappedHeld(x, g, y, t);
    case TimedOut => LeaveFrame(x, g, y); SwappedHeld(x, g, y, t);
    case Resuming => MarkActiveFrame(x, g, y); SwappedHeld(x, g, y, t);
    case Resumed => TakeFrame(x, g, y); SwappedHeld(x, g, y, t);
    case Draining => BalanceFrame(x, g, size, y); SwappedHeld(x, g, y, t);
    case Scanning(_, _, _) => SplitFrame(x, g, y); SwappedHeld(x, g, y, t);
    case Donating(_, _, _, _) => ErasedHeld(x, g, self, size, aborted, y, t);
    case Checking => PoppedHeld(x, g, y, t);
    case Running(slot) => RanHeld(x, g, y, slot, t);
    case Leaving => LeaveFrame(x, g, y); SwappedHeld(x, g, y, t);
  }

  lemma AcceptHeld(x: Worker, slots: seq<Slot>, t: nat)
    requires Owned(x)
    ensures Held(Accept(x, slots), t) == Held(x, t) + Copies(slots, t)
  {
    CopiesConcat(x.queue, slots, t);
    hide Copies;
  }

  lemma DonorHeld(x: Worker, g: nat, t: nat)
    requires Owned(x) && g < |x.loops| && x.loops[g].Donating?
    requires x.loops[g].begin <= CutEnd(x.loops[g]) <= |x.own|
    ensures Held(x, t) == Held(Donor(x, g), t) + Copies(x.own[x.loops[g].begin..CutEnd(x.loops[g])], t)
  {
    hide Copies, Given, Last, Owned;
    var y := Donor(x, g);
    Latest(x, g);
    MovesTo(x, y, g, y.loops[g]);
    GivenCopies(x.own, x.loops[g].begin, CutEnd(x.loops[g]), t);
  }

  lemma GivenCopies(own: seq<Slot>, begin: nat, end: nat, t: nat)
    requires begin <= end <= |own|
    ensures Copies(own, t) == Copies(Given(own, begin, end), t) + Copies(own[begin..end], t)
  {
    hide Copies, Empty;
    assert own == own[..begin] + own[begin..end] + own[end..];
    CopiesConcat(own[..begin] + own[begin..end], own[end..], t);
    CopiesConcat(own[..begin], own[begin..end], t);
    CopiesConcat(own[..begin] + Empty(end - begin), own[end..], t);
    CopiesConcat(own[..begin], Empty(end - begin), t);
    CopiesEmpty(end - begin, t);
  }

  lemma StopHeld(x: Worker, dropped: seq<Slot>, y: Worker, t: nat)
    requires StopStep(x, dropped, y)
    ensures Held(x, t) == Held(y, t) + Copies(dropped, t)
  {
    hide Copies;
    StopQueues(x, dropped, y);
    Copies0(t);
    CopiesConcat(x.queue, x.own, t);
    hide Last, StopStep;
  }

  lemma StopQueues(x: Worker, dropped: seq<Slot>, y: Worker)
    requires StopStep(x, dropped, y)
    ensures Last(y) == Last(x)
    ensures (dropped == [] && y.own == x.own && y.queue == x.queue) || (dropped == x.queue + x.own && y.own == [] && y.queue == [])
  {
    hide Signal;
    if x.phase != Joined { SignalQueues(x, y); }
  }

  lemma SignalQueues(x: Worker, y: Worker)
    requires Signal(x, y)
    ensures y.loops == x.loops && y.own == x.own && y.queue == x.queue
  {}

  // ---------- every step, every run ----------

  lemma NextInv(s: Pool, step: Step, t: Pool)
    requires Inv(s) && Next(s, step, t)
    ensures Inv(t)
  {
    hide Good, Inv, LoopStep, StopStep, ScanStep, DonateStep, Accept, Full1, At, AllFull;
    match step
    case Enqueue(w, ts) =>
      Among(s, w);
      AllFull1(ts);
      AcceptKeeps(s.workers[w], w, |s.workers|, AbortedSet(s), s.stopping, Full1(ts));
      AcceptAbort(s.workers[w], Full1(ts));
      InvWith(s, w, Accept(s.workers[w], Full1(ts)), t);
    case EnqueueLocal(w, g, ts) =>
      Among(s, w);
      LocalKeeps(s.workers[w], g, w, |s.workers|, AbortedSet(s), s.stopping, ts);
      InvWith(s, w, t.workers[w], t);
    case Acquire(w) =>
      Among(s, w);
      FlagKeeps(s.workers[w], w, |s.workers|, AbortedSet(s), s.stopping);
      InvWith(s, w, t.workers[w], t);
    case Release(w) =>
      Among(s, w);
      ReleaseKeeps(s.workers[w], w, |s.workers|, AbortedSet(s), s.stopping);
      InvWith(s, w, t.workers[w], t);
    case Loop(w, g, done) =>
      Among(s, w);
      LoopKeeps(s.workers[w], g, w, |s.workers|, AbortedSet(s), s.stopping, done, t.workers[w]);
      InvWith(s, w, t.workers[w], t);
    case Scan(w, g) => ScanInv(s, w, g, t);
    case Donate(w, g) => DonateInv(s, w, g, t);
    case Shutdown => ShutdownInv(s, t);
    case Stop(w, dropped) =>
      Among(s, w);
      StopKeeps(s.workers[w], w, |s.workers|, AbortedSet(s), dropped, t.workers[w]);
      StopAbort(s.workers[w], dropped, t.workers[w], w, |s.workers|, AbortedSet(s));
      InvWith(s, w, t.workers[w], t);
  }

  lemma AllFull1(ts: seq<nat>)
    ensures AllFull(Full1(ts))
  {}

  lemma StopAbort(x: Worker, dropped: seq<Slot>, y: Worker, self: nat, size: nat, aborted: set<nat>)
    requires Good(x, self, size, aborted, true) && StopStep(x, dropped, y)
    ensures x.abort ==> y.abort
  {
    hide Owned, Wakeable, Balanced, Tidy;
  }

  lemma ShutdownInv(s: Pool, t: Pool)
    requires Inv(s) && t == s.(stopping := true)
    ensures Inv(t)
  {
    hide Owned, Wakeable, Phased, Balanced, Tidy;
    assert AbortedSet(t) == AbortedSet(s);
  }

  lemma InvInit(s: Pool)
    requires Init(s)
    ensures Inv(s)
  {
    hide AbortedSet;
  }

  /** A change of one worker, counted. */
  lemma PlacesWith(s: Pool, w: nat, y: Worker, t: Pool, id: nat)
    requires w < |s.workers| && t.workers == s.workers[w := y]
    ensures Places(t, id) - Places(s, id) == Held(y, id) - Held(s.workers[w], id)
                                           + Copies(t.executed, id) - Copies(s.executed, id)
                                           + Copies(t.discarded, id) - Copies(s.discarded, id)
  {
    hide Held, Copies;
    TotalWith(s.workers, w, y, |s.workers|, id);
  }

  /** A change of two workers that passes a task on or changes nothing that counts. */
  lemma PlacesWithTwo(s: Pool, j: nat, z: Worker, w: nat, y: Worker, t: Pool, id: nat)
    requires j < |s.workers| && w < |s.workers| && j != w && t == s.(workers := s.workers[j := z][w := y])
    requires Held(z, id) + Held(y, id) == Held(s.workers[j], id) + Held(s.workers[w], id)
    ensures Places(t, id) == Places(s, id)
  {
    hide Held, Copies;
    TotalWith(s.workers, j, z, |s.workers|, id);
    TotalWith(s.workers[j := z], w, y, |s.workers|, id);
  }

  ghost predicate Conserved(s: Pool, id: nat) {
    Places(s, id) == Copies(s.accepted, id)
  }

  lemma ScanConserves(s: Pool, w: nat, g: nat, t: Pool, id: nat)
    requires Inv(s) && IsLoop(s, w, g) && ScanStep(s, w, g, t) && Conserved(s, id)
    ensures Conserved(t, id)
  {
    hide Good, Inv, Held, Copies, Places;
    var x, size := s.workers[w], |s.workers|;
    Among(s, w);
    var index := (w + x.loops[g].i) % size;
    ScannedHeld(x, g, w, size, AbortedSet(s), s.stopping, t.workers[w], id);
    if index == w || !s.workers[index].flag {
      PlacesWith(s, w, t.workers[w], t, id);
    } else {
      FlagHeld(s.workers[index], id);
      PlacesWithTwo(s, index, s.workers[index].(flag := false), w, t.workers[w], t, id);
    }
  }

  lemma FlagHeld(x: Worker, id: nat)
    ensures Held(x.(flag := false), id) == Held(x, id)
  {
    assert Last(x.(flag := false)) == Last(x);
    hide Last;
  }

  lemma ScannedHeld(x: Worker, g: nat, self: nat, size: nat, aborted: set<nat>, stopping: bool, y: Worker, id: nat)
    requires Good(x, self, size, aborted, stopping) && g < |x.loops| && x.loops[g].Scanning?
    requires |y.loops| == |x.loops| && y.loops[g].Scanning? && y.own == x.own && y.queue == x.queue
    ensures Held(y, id) == Held(x, id)
  {
    hide Held, Wakeable, Phased, Balanced, Tidy;
    Latest(x, g);
    HeldSame(x, y, id);
  }

  lemma DonateConserves(s: Pool, w: nat, g: nat, t: Pool, id: nat)
    requires Inv(s) && IsLoop(s, w, g) && DonateStep(s, w, g, t) && Conserved(s, id)
    ensures Conserved(t, id)
  {
    hide Good, Inv, Held, Copies, Places, Given, Accept, Owned, Wakeable, Phased, Balanced, Tidy;
    var x, size := s.workers[w], |s.workers|;
    var pc := x.loops[g];
    Among(s, w);
    CutsInside(x, g, w, size, AbortedSet(s), s.stopping);
    GoodOwned(x, w, size, AbortedSet(s), s.stopping);
    var j := x.list[pc.pos];
    if s.workers[j].abort {
      RefusedHeld(x, g, id);
      PlacesWith(s, w, At(x, g, Leaving), t, id);
    } else {
      var range := x.own[pc.begin..CutEnd(pc)];
      Among(s, j);
      GoodOwned(s.workers[j], j, size, AbortedSet(s), s.stopping);
      AcceptHeld(s.workers[j], range, id);
      DonorHeld(x, g, id);
      PlacesWithTwo(s, j, Accept(s.workers[j], range), w, Donor(x, g), t, id);
    }
  }

  lemma GoodOwned(x: Worker, self: nat, size: nat, aborted: set<nat>, stopping: bool)
    requires Good(x, self, size, aborted, stopping)
    ensures Owned(x) && Wakeable(x) && Phased(x) && Balanced(x, self, size, aborted) && (!stopping ==> Tidy(x))
  {
    hide Owned, Wakeable, Phased, Balanced, Tidy;
  }

  lemma RefusedHeld(x: Worker, g: nat, id: nat)
    requires Owned(x) && g < |x.loops| && x.loops[g].Donating?
    ensures Held(At(x, g, Leaving), id) == Held(x, id)
  {
    hide Held;
    Latest(x, g);
    HeldSame(x, At(x, g, Leaving), id);
  }

  lemma LocalHeld(x: Worker, ts: seq<nat>, id: nat)
    ensures Held(x.(own := x.own + Full1(ts)), id) == Held(x, id) + Copies(Full1(ts), id)
  {
    CopiesConcat(x.own, Full1(ts), id);
    assert Last(x.(own := x.own + Full1(ts))) == Last(x);
    hide Last, Copies, Full1;
  }

  lemma ReleaseHeld(x: Worker, id: nat)
    requires x.pending > 0
    ensures Held(x.(pending := x.pending - 1, sem := x.sem + 1), id) == Held(x, id)
  {
    assert Last(x.(pending := x.pending - 1, sem := x.sem + 1)) == Last(x);
    hide Last;
  }

  lemma NextConserves(s: Pool, step: Step, t: Pool, id: nat)
    requires Inv(s) && Next(s, step, t) && Conserved(s, id)
    ensures Conserved(t, id)
  {
    hide Good, Inv, LoopStep, StopStep, ScanStep, DonateStep, Accept, Full1, At, Held, Copies, Owned, Balanced;
    match step
    case Enqueue(w, ts) =>
      Among(s, w);
      GoodOwned(s.workers[w], w, |s.workers|, AbortedSet(s), s.stopping);
      AcceptHeld(s.workers[w], Full1(ts), id);
      CopiesConcat(s.accepted, Full1(ts), id);
      PlacesWith(s, w, t.workers[w], t, id);
    case EnqueueLocal(w, g, ts) =>
      LocalHeld(s.workers[w], ts, id);
      CopiesConcat(s.accepted, Full1(ts), id);
      PlacesWith(s, w, t.workers[w], t, id);
    case Acquire(w) =>
      FlagHeld(s.workers[w], id);
      PlacesWith(s, w, t.workers[w], t, id);
    case Release(w) =>
      ReleaseHeld(s.workers[w], id);
      PlacesWith(s, w, t.workers[w], t, id);
    case Loop(w, g, done) =>
      Among(s, w);
      GoodOwned(s.workers[w], w, |s.workers|, AbortedSet(s), s.stopping);
      LoopHeld(s.workers[w], g, w, |s.workers|, AbortedSet(s), done, t.workers[w], id);
      CopiesConcat(s.executed, done, id);
      PlacesWith(s, w, t.workers[w], t, id);
    case Scan(w, g) => ScanConserves(s, w, g, t, id);
    case Donate(w, g) => DonateConserves(s, w, g, t, id);
    case Shutdown =>
    case Stop(w, dropped) =>
      StopHeld(s.workers[w], dropped, t.workers[w], id);
      CopiesConcat(s.discarded, dropped, id);
      PlacesWith(s, w, t.workers[w], t, id);
  }

  lemma {:induction false} TotalZero(ws: seq<Worker>, n: nat, id: nat)
    requires n <= |ws| && forall w :: 0 <= w < n ==> ws[w].own == [] && ws[w].queue == [] && !Last(ws[w]).Running?
    ensures TotalHeld(ws, n, id) == 0
  {
    hide Last;
    if n > 0 { TotalZero(ws, n - 1, id); }
  }

  lemma {:induction false} Invariant(run: seq<Pool>, steps: seq<Step>, i: nat)
    requires IsRun(run, steps) && i < |run|
    ensures Inv(run[i]) && forall id :: Conserved(run[i], id)
  {
    hide Inv, Next;
    if i == 0 {
      InvInit(run[0]);
      forall id: nat ensures Conserved(run[0], id) { InitConserved(run[0], id); }
    } else {
      Invariant(run, steps, i - 1);
      assert Next(run[i - 1], steps[i - 1], run[i - 1 + 1]);
      NextInv(run[i - 1], steps[i - 1], run[i]);
      forall id: nat ensures Conserved(run[i], id) { NextConserves(run[i - 1], steps[i - 1], run[i], id); }
    }
  }

  lemma InitConserved(s: Pool, id: nat)
    requires Init(s)
    ensures Conserved(s, id)
  {
    TotalZero(s.workers, |s.workers|, id);
  }

  // ---------- the theorems ----------

  /** Every accepted copy of a task is in exactly one place: in some worker's private or public queue, being executed,
      executed, or discarded by shutdown. */
  lemma TasksAreConserved(run: seq<Pool>, steps: seq<Step>, i: nat, id: nat)
    requires IsRun(run, steps) && i < |run|
    ensures Copies(run[i].accepted, id)
         == TotalHeld(run[i].workers, |run[i].workers|, id) + Copies(run[i].executed, id) + Copies(run[i].discarded, id)
  {
    hide IsRun;
    Invariant(run, steps, i);
    assert Conserved(run[i], id);
  }

  /** A task that was accepted once is executed at most once, and then it is nowhere else. */
  lemma NoTaskRunsTwice(run: seq<Pool>, steps: seq<Step>, i: nat, id: nat)
    requires IsRun(run, steps) && i < |run| && Copies(run[i].accepted, id) <= 1
    ensures Copies(run[i].executed, id) <= 1
    ensures Full(id) in run[i].executed ==>
              Full(id) !in run[i].discarded
              && forall w :: 0 <= w < |run[i].workers| ==>
                   Full(id) !in run[i].workers[w].own && Full(id) !in run[i].workers[w].queue && Last(run[i].workers[w]) != Running(Full(id))
  {
    hide IsRun, Copies, Last;
    TasksAreConserved(run, steps, i, id);
    CopiesIn(run[i].executed, id);
    CopiesIn(run[i].discarded, id);
    if Full(id) in run[i].executed {
      forall w | 0 <= w < |run[i].workers|
        ensures Full(id) !in run[i].workers[w].own && Full(id) !in run[i].workers[w].queue && Last(run[i].workers[w]) != Running(Full(id))
      {
        HeldPart(run[i].workers, w, |run[i].workers|, id);
        CopiesIn(run[i].workers[w].own, id);
        CopiesIn(run[i].workers[w].queue, id);
      }
    }
  }

  lemma {:induction false} CopiesIn(q: seq<Slot>, id: nat)
    ensures Full(id) in q <==> Copies(q, id) > 0
  {
    if q != [] {
      CopiesIn(q[..|q| - 1], id);
      assert q == q[..|q| - 1] + [q[|q| - 1]];
    }
  }

  lemma {:induction false} HeldPart(ws: seq<Worker>, w: nat, n: nat, id: nat)
    requires w < n <= |ws|
    ensures Held(ws[w], id) <= TotalHeld(ws, n, id)
  {
    hide Held;
    if w < n - 1 { HeldPart(ws, w, n - 1, id); }
  }

  /** m_idle is false exactly while one thread of the worker is in the work loop, and it is never more than one; a thread
      that respawning replaces has left the loop for good. */
  lemma OneLoopPerWorker(run: seq<Pool>, steps: seq<Step>, i: nat, w: nat)
    requires IsRun(run, steps) && i < |run| && w < |run[i].workers|
    ensures var x := run[i].workers[w];
            && (x.idle <==> forall g :: 0 <= g < |x.loops| ==> x.loops[g] == Exited)
            && (!x.idle ==> x.loops != [] && x.loops[|x.loops| - 1] != Exited)
            && forall g :: 0 <= g < |x.loops| - 1 ==> x.loops[g] == Exited
  {
    hide IsRun, Inv;
    Invariant(run, steps, i);
    Among(run[i], w);
    GoodOwned(run[i].workers[w], w, |run[i].workers|, AbortedSet(run[i]), run[i].stopping);
  }

  /** A worker that sleeps with a task in its public queue has a wake-up on its way, and so has one that shutdown waits for. */
  lemma NoWakeUpIsLost(run: seq<Pool>, steps: seq<Step>, i: nat, w: nat)
    requires IsRun(run, steps) && i < |run| && w < |run[i].workers|
    ensures var x := run[i].workers[w];
            && (Asleep(Last(x)) && x.queue != [] ==> x.sem + x.pending > 0)
            && (Asleep(Last(x)) && x.phase == Notified ==> x.sem > 0)
            && (Last(x) == Woken && (x.queue != [] || x.phase == Notified) ==> x.taskFound)
  {
    hide IsRun, Inv, Balanced, Owned, Tidy;
    Invariant(run, steps, i);
    Among(run[i], w);
    GoodOwned(run[i].workers[w], w, |run[i].workers|, AbortedSet(run[i]), run[i].stopping);
  }

  /** Also while the pool shuts down, the donor keeps a task for itself, so that the last task can be taken. */
  lemma DonorKeepsATask(run: seq<Pool>, steps: seq<Step>, i: nat, w: nat)
    requires IsRun(run, steps) && i < |run| && w < |run[i].workers| && Last(run[i].workers[w]) == Checking
    ensures run[i].workers[w].own != []
  {
    hide IsRun, Inv, Owned, Tidy, Wakeable, Phased;
    Invariant(run, steps, i);
    Among(run[i], w);
    GoodOwned(run[i].workers[w], w, |run[i].workers|, AbortedSet(run[i]), run[i].stopping);
  }

  /** Before shutdown, a loop about to swap its queues has emptied the private one, and no queue holds an empty task
      but the one from which tasks are being donated. */
  lemma SwapFindsNothing(run: seq<Pool>, steps: seq<Step>, i: nat, w: nat)
    requires IsRun(run, steps) && i < |run| && w < |run[i].workers| && !run[i].stopping
    ensures var x := run[i].workers[w];
            && (Last(x) == Top || Last(x) == Resumed || Last(x) == Exited ==> x.own == [])
            && AllFull(x.queue) && (!Last(x).Donating? ==> AllFull(x.own))
            && (Last(x).Donating? ==> Last(x).begin <= |x.own| && AllFull(x.own[Last(x).begin..])
                                      && x.own[..Last(x).begin] == Empty(Last(x).begin))
  {
    hide IsRun, Inv, Owned, Wakeable, Phased;
    Invariant(run, steps, i);
    Among(run[i], w);
    GoodOwned(run[i].workers[w], w, |run[i].workers|, AbortedSet(run[i]), run[i].stopping);
  }

  /** When shutdown has returned, no thread is left in a loop, no task is left in a queue, and every accepted task has been
      executed or discarded. */
  lemma NothingLeftBehind(run: seq<Pool>, steps: seq<Step>, i: nat, id: nat)
    requires IsRun(run, steps) && i < |run| && forall w :: 0 <= w < |run[i].workers| ==> run[i].workers[w].phase == Cleared
    ensures forall w :: 0 <= w < |run[i].workers| ==> run[i].workers[w].idle && run[i].workers[w].own == run[i].workers[w].queue == []
    ensures Copies(run[i].accepted, id) == Copies(run[i].executed, id) + Copies(run[i].discarded, id)
  {
    hide IsRun, Inv, Copies, Balanced, Tidy, Wakeable, Last;
    TasksAreConserved(run, steps, i, id);
    Invariant(run, steps, i);
    forall w | 0 <= w < |run[i].workers|
      ensures run[i].workers[w].idle && run[i].workers[w].own == run[i].workers[w].queue == [] && Last(run[i].workers[w]) == Exited
    {
      Among(run[i], w);
      GoodOwned(run[i].workers[w], w, |run[i].workers|, AbortedSet(run[i]), run[i].stopping);
    }
    TotalZero(run[i].workers, |run[i].workers|, id);
  }
}
