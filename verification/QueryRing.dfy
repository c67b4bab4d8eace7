/** The GPU profiler's ring of timestamp queries: four frames of query ranges on 8192 slots, counted by a 32-bit index. */
module QueryRing {
  import opened Powers

  const MAX_FRAME_EVENTS: nat := 1024
  const NUM_FRAMES_DELAY: nat := 4
  const MAX_QUERIES_COUNT: nat := 2 * MAX_FRAME_EVENTS * NUM_FRAMES_DELAY
  /** (uint32_t)-1: the frame has not begun. */
  const UNSET: nat := 0xFFFF_FFFF

  /** frameEvent is where the end of the frame is to be noted, if it has begun. */
  datatype QueryFrame = QueryFrame(frameEvent: Target, start: nat, count: nat)
  datatype Target = Nowhere | To(address: nat)
  datatype State = Off | Starting | Running

  const NO_FRAME: QueryFrame := QueryFrame(Nowhere, UNSET, 0)

  /** A query that has been issued: where its result goes, and the time the GPU notes for it. */
  datatype Query = Query(out: nat, stamp: int)

  // ---------- the clocks ----------

  /** The division of C++, which drops the fraction. */
  function Quotient(a: int, b: int): int
    requires b > 0
  {
    if a >= 0 then a / b else -(-a / b)
  }

  datatype Clock = Clock(frequencyCpu: int, frequencyGpu: int, timestampCpu: int, timestampGpu: int)

  /** GetCPUTimestamp, where nothing overflows. */
  function CpuTimestamp(c: Clock, gpu: int): int
    requires c.frequencyGpu > 0
  {
    c.timestampCpu + Quotient((gpu - c.timestampGpu) * c.frequencyCpu, c.frequencyGpu)
  }

  lemma QuotientGrows(a: int, b: int, d: int)
    requires a <= b && d > 0
    ensures Quotient(a, d) <= Quotient(b, d)
  {
    if a >= 0 {
      DivGrows(a, b, d);
    } else if b < 0 {
      DivGrows(-b, -a, d);
    } else {
      DivGrows(0, -a, d);
      DivGrows(0, b, d);
    }
  }

  lemma DivGrows(a: nat, b: nat, d: nat)
    requires a <= b && d > 0
    ensures 0 <= a / d <= b / d
  {
    DivMod(a, d);
    DivMod(b, d);
    if a / d > b / d { MulMonotone(b / d + 1, a / d, d); }
  }

  /** Converted times keep their order, and the two clocks agree at the time of synchronization. */
  lemma ClockKeepsOrder(c: Clock, s: int, t: int)
    requires c.frequencyGpu > 0 && c.frequencyCpu >= 0 && s <= t
    ensures CpuTimestamp(c, s) <= CpuTimestamp(c, t) && CpuTimestamp(c, c.timestampGpu) == c.timestampCpu
  {
    hide Quotient;
    MulMonotone(s - c.timestampGpu, t - c.timestampGpu, c.frequencyCpu);
    QuotientGrows((s - c.timestampGpu) * c.frequencyCpu, (t - c.timestampGpu) * c.frequencyCpu, c.frequencyGpu);
    assert (c.timestampGpu - c.timestampGpu) * c.frequencyCpu == 0;
    NoQuotient(c.frequencyGpu);
  }

  lemma NoQuotient(d: int)
    requires d > 0
    ensures Quotient(0, d) == 0
  {}

  lemma QuotientBounds(a: int, d: int)
    requires d > 0
    ensures a >= 0 ==> Quotient(a, d) * d <= a < (Quotient(a, d) + 1) * d
    ensures a <= 0 ==> (Quotient(a, d) - 1) * d < a <= Quotient(a, d) * d
  {
    var m: nat := if a >= 0 then a else -a;
    DivMod(m, d);
    MulDistributes(m / d, 1, d);
    assert (-(m / d)) * d == -(m / d * d);
    MulDistributes(-(m / d), -1, d);
    if a == 0 { NoQuotient(d); }
  }

  /** The CPU ticks since synchronization, times the GPU's frequency, are the GPU ticks since then times the CPU's, up to a
      fraction of a tick, which is dropped toward the time of synchronization. */
  lemma ClockConverts(c: Clock, gpu: int)
    requires c.frequencyGpu > 0 && c.frequencyCpu >= 0
    ensures var e, d := CpuTimestamp(c, gpu) - c.timestampCpu, (gpu - c.timestampGpu) * c.frequencyCpu;
            && (gpu >= c.timestampGpu ==> e * c.frequencyGpu <= d < (e + 1) * c.frequencyGpu)
            && (gpu <= c.timestampGpu ==> (e - 1) * c.frequencyGpu < d <= e * c.frequencyGpu)
  {
    hide Quotient;
    var ticks := gpu - c.timestampGpu;
    QuotientBounds(ticks * c.frequencyCpu, c.frequencyGpu);
    if ticks >= 0 { MulMonotone(0, ticks, c.frequencyCpu); }
    if ticks <= 0 { MulMonotone(ticks, 0, c.frequencyCpu); }
  }

  /** Whole seconds on one clock are as many on the other. */
  lemma SecondsAreSeconds(c: Clock, seconds: int)
    requires c.frequencyGpu > 0
    ensures CpuTimestamp(c, c.timestampGpu + seconds * c.frequencyGpu) == c.timestampCpu + seconds * c.frequencyCpu
  {
    hide Quotient;
    var f, g := c.frequencyCpu, c.frequencyGpu;
    var x := seconds * f;
    assert (c.timestampGpu + seconds * g - c.timestampGpu) * f == x * g;
    QuotientExact(x, g);
  }

  lemma QuotientExact(x: int, d: int)
    requires d > 0
    ensures Quotient(x * d, d) == x
  {
    if x >= 0 {
      MulMonotone(0, x, d);
      DivModUnique(x * d, x, 0, d);
    } else {
      MulMonotone(x, 0, d);
      assert -(x * d) == (-x) * d;
      DivModUnique((-x) * d, -x, 0, d);
      if x * d == 0 { MulMonotone(x, -1, d); }
    }
  }

  // ---------- the ring ----------

  function Slot(k: nat): (s: nat)
    ensures s < MAX_QUERIES_COUNT
  {
    k % MAX_QUERIES_COUNT
  }

  /** The index has the same slot before and after it is cut down to 32 bits. */
  lemma WrappedSlot(k: nat)
    ensures k % WORD % MAX_QUERIES_COUNT == Slot(k)
  {
    DivMod(k, WORD);
    DivMod(k % WORD, MAX_QUERIES_COUNT);
    DivModUnique(k, k / WORD * (WORD / MAX_QUERIES_COUNT) + k % WORD / MAX_QUERIES_COUNT, k % WORD % MAX_QUERIES_COUNT, MAX_QUERIES_COUNT);
  }

  lemma WrappedDifference(a: nat, b: nat)
    requires a <= b < a + WORD
    ensures (b % WORD - a % WORD) % WORD == b - a
  {
    DivMod(a, WORD);
    DivMod(b, WORD);
    var p, q := a / WORD, b / WORD;
    assert b - a == b % WORD - a % WORD + (q - p) * WORD;
    assert q == p || q == p + 1;
  }

  /** Queries less than a round apart have different slots. */
  lemma SlotsDiffer(k: nat, l: nat)
    requires k < l < k + MAX_QUERIES_COUNT
    ensures Slot(k) != Slot(l)
  {
    DivMod(k, MAX_QUERIES_COUNT);
    DivMod(l, MAX_QUERIES_COUNT);
    var p, q := k / MAX_QUERIES_COUNT, l / MAX_QUERIES_COUNT;
    assert l - k == (q - p) * MAX_QUERIES_COUNT + (Slot(l) - Slot(k));
  }

  /** Going on from a slot: the next slots in order, and round at the end. */
  lemma SlotAfter(k: nat, i: nat)
    requires i <= MAX_QUERIES_COUNT
    ensures Slot(k) + i < MAX_QUERIES_COUNT ==> Slot(k + i) == Slot(k) + i
    ensures Slot(k) + i >= MAX_QUERIES_COUNT ==> Slot(k + i) == Slot(k) + i - MAX_QUERIES_COUNT
  {
    DivMod(k, MAX_QUERIES_COUNT);
    var q := k / MAX_QUERIES_COUNT;
    if Slot(k) + i < MAX_QUERIES_COUNT {
      DivModUnique(k + i, q, Slot(k) + i, MAX_QUERIES_COUNT);
    } else {
      DivModUnique(k + i, q + 1, Slot(k) + i - MAX_QUERIES_COUNT, MAX_QUERIES_COUNT);
    }
  }

  /** A stretch of slots. */
  datatype Segment = Segment(start: nat, count: nat)

  /** What Flip has the GPU resolve for the queries from `begin` up to `end`, both cut down to 32 bits. */
  function Segments(begin: nat, end: nat): seq<Segment> {
    var start, finish := begin % MAX_QUERIES_COUNT, end % MAX_QUERIES_COUNT;
    if start < finish then [Segment(start, (end - begin) % WORD)]
    else [Segment(start, MAX_QUERIES_COUNT - start), Segment(0, finish)]
  }

  /** What Flip has copied out later, for a frame that starts there and has so many queries. */
  function Copied(start: nat, count: nat): seq<Segment> {
    var first := start % MAX_QUERIES_COUNT;
    var finish := first + count;
    [Segment(first, (if finish < MAX_QUERIES_COUNT then finish else MAX_QUERIES_COUNT) - first)]
    + if finish > MAX_QUERIES_COUNT then [Segment(0, finish - MAX_QUERIES_COUNT)] else []
  }

  function SlotsOf(g: Segment): seq<int> {
    seq(g.count, i => g.start + i)
  }

  function AllSlots(gs: seq<Segment>): seq<int> {
    if gs == [] then [] else SlotsOf(gs[0]) + AllSlots(gs[1..])
  }

  /** The slots of the queries from `begin` up to `end`. */
  function QuerySlots(begin: nat, end: nat): seq<int>
    requires begin <= end
  {
    seq(end - begin, (i: nat) => Slot(begin + i))
  }

  /** What the GPU resolves is exactly the frame's slots, in order, wherever the ring and the 32-bit index wrap. */
  lemma SegmentsCover(begin: nat, end: nat)
    requires begin < end <= begin + MAX_QUERIES_COUNT
    ensures AllSlots(Segments(begin % WORD, end % WORD)) == QuerySlots(begin, end)
    ensures forall g :: g in Segments(begin % WORD, end % WORD) ==> g.start + g.count <= MAX_QUERIES_COUNT
  {
    hide Slot, AllSlots;
    WrappedSlot(begin);
    WrappedSlot(end);
    WrappedDifference(begin, end);
    SlotAfter(begin, end - begin);
    var gs := Segments(begin % WORD, end % WORD);
    TwoSegments(gs);
    forall i | 0 <= i < end - begin ensures |AllSlots(gs)| == end - begin && AllSlots(gs)[i] == Slot(begin + i) {
      SlotAfter(begin, i);
    }
  }

  lemma TwoSegments(gs: seq<Segment>)
    ensures |gs| == 1 ==> AllSlots(gs) == SlotsOf(gs[0])
    ensures |gs| == 2 ==> AllSlots(gs) == SlotsOf(gs[0]) + SlotsOf(gs[1])
  {
    if |gs| == 1 {
      assert gs[1..] == [];
    } else if |gs| == 2 {
      assert gs[1..] == [gs[1]] && [gs[1]][1..] == [];
    }
  }

  /** What is copied out is exactly that, too. */
  lemma CopiedCover(begin: nat, end: nat)
    requires begin < end <= begin + MAX_QUERIES_COUNT
    ensures AllSlots(Copied(begin % WORD, end - begin)) == QuerySlots(begin, end)
    ensures forall g :: g in Copied(begin % WORD, end - begin) ==> g.start + g.count <= MAX_QUERIES_COUNT
  {
    hide Slot;
    WrappedSlot(begin);
    var gs := Copied(begin % WORD, end - begin);
    TwoSegments(gs);
    forall i | 0 <= i < end - begin ensures |AllSlots(gs)| == end - begin && AllSlots(gs)[i] == Slot(begin + i) {
      SlotAfter(begin, i);
    }
  }

  // ---------- what the ring holds ----------

  /** Each slot holds where the result of its latest query goes, and the time the GPU has noted for it. */
  ghost predicate Holds(outs: seq<nat>, heap: seq<int>, asked: seq<Query>) {
    && |outs| == |heap| == MAX_QUERIES_COUNT
    && forall k :: 0 <= k < |asked| <= k + MAX_QUERIES_COUNT ==> outs[Slot(k)] == asked[k].out && heap[Slot(k)] == asked[k].stamp
  }

  lemma HoldsOn(outs: seq<nat>, heap: seq<int>, asked: seq<Query>, q: Query)
    requires Holds(outs, heap, asked)
    ensures Holds(outs[Slot(|asked|) := q.out], heap[Slot(|asked|) := q.stamp], asked + [q])
  {
    hide Slot;
    forall k | 0 <= k < |asked| + 1 <= k + MAX_QUERIES_COUNT
      ensures outs[Slot(|asked|) := q.out][Slot(k)] == (asked + [q])[k].out
           && heap[Slot(|asked|) := q.stamp][Slot(k)] == (asked + [q])[k].stamp
    {
      if k < |asked| { SlotsDiffer(k, |asked|); }
    }
  }

  /** The results of the queries from `begin` up to `end`, in order. */
  ghost function Results(c: Clock, asked: seq<Query>, begin: nat, end: nat): seq<(nat, int)>
    requires c.frequencyGpu > 0 && begin <= end <= |asked|
  {
    seq(end - begin, i requires 0 <= i < end - begin => (asked[begin + i].out, CpuTimestamp(c, asked[begin + i].stamp)))
  }

  /** What is written for slots, in the order of the slots. */
  ghost function ResultsAt(c: Clock, outs: seq<nat>, stamps: seq<int>, slots: seq<int>): seq<(nat, int)>
    requires c.frequencyGpu > 0 && |outs| == |stamps| == MAX_QUERIES_COUNT
    requires forall i :: 0 <= i < |slots| ==> 0 <= slots[i] < MAX_QUERIES_COUNT
  {
    seq(|slots|, i requires 0 <= i < |slots| => (outs[slots[i]], CpuTimestamp(c, stamps[slots[i]])))
  }

  lemma ResultsAtConcat(c: Clock, outs: seq<nat>, stamps: seq<int>, a: seq<int>, b: seq<int>)
    requires c.frequencyGpu > 0 && |outs| == |stamps| == MAX_QUERIES_COUNT
    requires (forall i :: 0 <= i < |a| ==> 0 <= a[i] < MAX_QUERIES_COUNT) && forall i :: 0 <= i < |b| ==> 0 <= b[i] < MAX_QUERIES_COUNT
    ensures ResultsAt(c, outs, stamps, a + b) == ResultsAt(c, outs, stamps, a) + ResultsAt(c, outs, stamps, b)
  {
    hide CpuTimestamp;
  }

  /** The queries from `begin` up to `end` have been resolved, as far as their slots have not been taken again. */
  ghost predicate Resolved(buffer: seq<int>, asked: seq<Query>, begin: nat, end: nat, last: nat) {
    && |buffer| == MAX_QUERIES_COUNT && end <= |asked|
    && forall k :: begin <= k < end && last <= k + MAX_QUERIES_COUNT ==> buffer[Slot(k)] == asked[k].stamp
  }

  /** If nothing has taken their slots again, what is written for the slots of a frame are the results of its queries. */
  lemma ResultsOf(c: Clock, outs: seq<nat>, heap: seq<int>, buffer: seq<int>, asked: seq<Query>, begin: nat, end: nat, last: nat)
    requires c.frequencyGpu > 0 && begin <= end <= last <= |asked| <= begin + MAX_QUERIES_COUNT
    requires Holds(outs, heap, asked) && Resolved(buffer, asked, begin, end, last)
    ensures ResultsAt(c, outs, buffer, QuerySlots(begin, end)) == Results(c, asked, begin, end)
  {
    hide CpuTimestamp, Slot;
  }

  // ---------- the four frames ----------

  /** The place of frame `i`, which begins with flip number `i` of a capture; the frames before the first are -1, -2, ... */
  function Place(base: nat, i: int): (p: nat)
    requires i >= -4
    ensures p < NUM_FRAMES_DELAY
  {
    (base + i + 5) % NUM_FRAMES_DELAY
  }

  lemma PlacesDiffer(base: nat, i: int, j: int)
    requires -4 <= i < j < i + 4
    ensures Place(base, i) != Place(base, j)
  {
    DivMod(base + i + 5, 4);
    DivMod(base + j + 5, 4);
    var p, q := (base + i + 5) / 4, (base + j + 5) / 4;
    assert j - i == (q - p) * 4 + (Place(base, j) - Place(base, i));
  }

  lemma PlaceAgain(base: nat, i: int)
    requires i >= 0
    ensures Place(base, i - 4) == Place(base, i)
  {
    DivMod(base + i + 1, 4);
    DivModUnique(base + i + 5, (base + i + 1) / 4 + 1, (base + i + 1) % 4, 4);
  }

  /** The number of the current flip, cut down to 32 bits, gives the places of the frame that ends and the one that begins. */
  lemma PlacesNow(base: nat, n: nat)
    ensures (base + n) % WORD % NUM_FRAMES_DELAY == Place(base, n - 1)
    ensures ((base + n) % WORD + 1) % NUM_FRAMES_DELAY == Place(base, n)
  {
    var m := base + n;
    DivMod(m, WORD);
    DivMod(m % WORD, 4);
    var q, r := m / WORD * (WORD / 4) + m % WORD / 4, m % WORD % 4;
    assert m == q * 4 + r;
    DivModUnique(m + 4, q + 1, r, 4);
    if r == 3 {
      DivModUnique(m % WORD + 1, m % WORD / 4 + 1, 0, 4);
      DivModUnique(m + 5, q + 2, 0, 4);
    } else {
      DivModUnique(m % WORD + 1, m % WORD / 4, r + 1, 4);
      DivModUnique(m + 5, q + 1, r + 1, 4);
    }
  }

  /** The frame begun with flip `i`: its range, once it has ended. */
  ghost predicate FrameIs(f: QueryFrame, marks: seq<nat>, i: int)
    requires i < |marks|
  {
    if i < 0 then f == NO_FRAME
    else if f.frameEvent == Nowhere || f.start != marks[i] % WORD then false
    else if i + 1 < |marks| && f.start != UNSET then f.count + marks[i] == marks[i + 1]
    else f.count == 0
  }

  ghost predicate FramesHold(frames: seq<QueryFrame>, base: nat, marks: seq<nat>) {
    && |frames| == NUM_FRAMES_DELAY
    && forall i :: |marks| - 4 <= i < |marks| ==> FrameIs(frames[Place(base, i)], marks, i)
  }

  /** Where frames begin: adjacent ranges, none empty and none larger than the ring. */
  ghost predicate Marked(marks: seq<nat>, asked: nat) {
    && (forall i :: 0 < i < |marks| ==> marks[i - 1] < marks[i] <= marks[i - 1] + MAX_QUERIES_COUNT)
    && (marks != [] ==> marks[|marks| - 1] <= asked)
  }

  /** None of the last four frames has asked more than 2 * MAX_FRAME_EVENTS queries. */
  ghost predicate FewQueries(marks: seq<nat>, asked: nat) {
    |marks| >= 4 ==>
      && asked <= marks[|marks| - 1] + 2 * MAX_FRAME_EVENTS
      && forall i :: |marks| - 4 < i < |marks| ==> marks[i] <= marks[i - 1] + 2 * MAX_FRAME_EVENTS
  }

  /** The frames after a flip that ends at query `end`. */
  function Flipped(frames: seq<QueryFrame>, now: nat, next: nat, event: nat, end: nat): seq<QueryFrame>
    requires now < |frames| && next < |frames|
  {
    var f := frames[now];
    frames[now := if f.start == UNSET then f else f.(count := (end % WORD - f.start) % WORD)]
          [next := QueryFrame(To(event), end % WORD, 0)]
  }

  lemma FlipFrames(frames: seq<QueryFrame>, base: nat, marks: seq<nat>, event: nat, end: nat)
    requires FramesHold(frames, base, marks)
    requires marks != [] ==> marks[|marks| - 1] < end <= marks[|marks| - 1] + MAX_QUERIES_COUNT
    ensures FramesHold(Flipped(frames, Place(base, |marks| - 1), Place(base, |marks|), event, end), base, marks + [end])
  {
    hide Place;
    var n := |marks|;
    var more := marks + [end];
    var after := Flipped(frames, Place(base, n - 1), Place(base, n), event, end);
    PlacesDiffer(base, n - 1, n);
    if n > 0 { WrappedDifference(marks[n - 1], end); }
    forall i | n - 3 <= i < n + 1 ensures FrameIs(after[Place(base, i)], more, i) {
      if i < n { PlacesDiffer(base, i, n); assert FrameIs(frames[Place(base, i)], marks, i); }
      if i < n - 1 { PlacesDiffer(base, i, n - 1); }
    }
  }

  /** Frame `i` has been resolved on the GPU, if it was not taken for one that has not begun. */
  ghost predicate FrameResolved(buffer: seq<int>, asked: seq<Query>, marks: seq<nat>, i: nat)
    requires i + 1 < |marks|
  {
    marks[i] % WORD != UNSET ==> Resolved(buffer, asked, marks[i], marks[i + 1], marks[|marks| - 1])
  }

  ghost predicate FramesResolved(buffer: seq<int>, asked: seq<Query>, marks: seq<nat>) {
    |buffer| == MAX_QUERIES_COUNT && forall i :: 0 <= i && |marks| - 5 <= i < |marks| - 1 ==> FrameResolved(buffer, asked, marks, i)
  }

  /** The buffer after the GPU has resolved these slots. */
  ghost predicate Took(before: seq<int>, after: seq<int>, heap: seq<int>, slots: seq<int>) {
    && |before| == |after| == |heap|
    && forall s :: 0 <= s < |after| ==> after[s] == if s in slots then heap[s] else before[s]
  }

  lemma ResolvedOn(before: seq<int>, after: seq<int>, outs: seq<nat>, heap: seq<int>, asked: seq<Query>, marks: seq<nat>, i: nat)
    requires Marked(marks, |asked|) && marks != [] && marks[|marks| - 1] < |asked| <= marks[|marks| - 1] + MAX_QUERIES_COUNT
    requires FramesResolved(before, asked, marks) && Holds(outs, heap, asked)
    requires Took(before, after, heap, QuerySlots(marks[|marks| - 1], |asked|))
    requires |marks| - 4 <= i < |marks|
    ensures FrameResolved(after, asked, marks + [|asked|], i)
  {
    hide Slot;
    var begin, end := marks[|marks| - 1], |asked|;
    if i == |marks| - 1 {
      forall k | begin <= k < end ensures after[Slot(k)] == asked[k].stamp {
        assert QuerySlots(begin, end)[k - begin] == Slot(k);
      }
    } else {
      assert FrameResolved(before, asked, marks, i);
      InOrder(marks, |asked|, i + 1, |marks| - 1);
      forall k | marks[i] <= k < marks[i + 1] && end <= k + MAX_QUERIES_COUNT
        ensures Slot(k) !in QuerySlots(begin, end)
      {
        forall l | begin <= l < end ensures Slot(l) != Slot(k) { SlotsDiffer(k, l); }
      }
    }
  }

  lemma {:induction false} InOrder(marks: seq<nat>, asked: nat, i: nat, j: nat)
    requires Marked(marks, asked) && i <= j < |marks|
    ensures marks[i] <= marks[j] <= asked
    decreases j - i
  {
    if i < j { InOrder(marks, asked, i, j - 1); }
    InTail(marks, asked, j);
  }

  lemma {:induction false} InTail(marks: seq<nat>, asked: nat, j: nat)
    requires Marked(marks, asked) && j < |marks|
    ensures marks[j] <= asked
    decreases |marks| - j
  {
    if j + 1 < |marks| { InTail(marks, asked, j + 1); assert marks[j + 1 - 1] < marks[j + 1]; }
  }

  /** A frame that begins at the sentinel is left out; so is everything when nothing is taken. */
  lemma NotResolvedOn(buffer: seq<int>, asked: seq<Query>, marks: seq<nat>, i: nat)
    requires Marked(marks, |asked|) && FramesResolved(buffer, asked, marks)
    requires marks == [] || marks[|marks| - 1] % WORD == UNSET
    requires marks != [] ==> marks[|marks| - 1] < |asked|
    requires |marks| - 4 <= i < |marks|
    ensures FrameResolved(buffer, asked, marks + [|asked|], i)
  {
    hide Slot;
    if i < |marks| - 1 { assert FrameResolved(buffer, asked, marks, i); }
  }

  lemma AskedOn(buffer: seq<int>, asked: seq<Query>, more: seq<Query>, marks: seq<nat>)
    requires FramesResolved(buffer, asked, marks) && Marked(marks, |asked|)
    ensures FramesResolved(buffer, asked + more, marks) && Marked(marks, |asked + more|)
  {
    hide Slot;
    forall i | 0 <= i && |marks| - 5 <= i < |marks| - 1 ensures FrameResolved(buffer, asked + more, marks, i) {
      assert FrameResolved(buffer, asked, marks, i);
    }
  }

  class Profiler {
    const clock: Clock
    var state: State
    var frameNumber: nat
    var queryIndex: nat
    const frames: array<QueryFrame>
    /** queryCpuTimestamps: where results go. */
    const outs: array<nat>
    /** The query heap of the GPU, the buffer it resolves to, and queryGpuTimestamps. */
    const heap: array<int>
    const buffer: array<int>
    const gpuTimes: array<int>
    /** Every result that has been written, in order. */
    var written: seq<(nat, int)>
    /** Since the capture began: the queries, where frames have begun among them, and the number of the first flip. */
    ghost var asked: seq<Query>
    ghost var marks: seq<nat>
    ghost var base: nat

    ghost predicate Shaped() {
      && frames.Length == NUM_FRAMES_DELAY
      && outs.Length == heap.Length == buffer.Length == gpuTimes.Length == MAX_QUERIES_COUNT
      && heap != buffer && heap != gpuTimes && buffer != gpuTimes && clock.frequencyGpu > 0
    }

    ghost predicate Counting()
      reads this`queryIndex, this`frameNumber, this`state, this`asked, this`marks, this`base
    {
      && queryIndex == |asked| % WORD && frameNumber == (base + |marks|) % WORD && Marked(marks, |asked|)
      && (marks == [] ==> asked == []) && (state == Starting ==> marks == []) && (state == Running ==> marks != [])
    }

    ghost predicate Valid()
      reads this, frames, outs, heap, buffer
    {
      && Shaped() && frameNumber < WORD
      && (state != Off ==>
            Counting() && Holds(outs[..], heap[..], asked) && FramesHold(frames[..], base, marks) && FramesResolved(buffer[..], asked, marks))
    }

    constructor (c: Clock)
      requires c.frequencyGpu > 0
      ensures Valid() && state == Off && written == []
    {
      clock, state, frameNumber, queryIndex, written := c, Off, 0, 0, [];
      frames := new QueryFrame[NUM_FRAMES_DELAY](_ => NO_FRAME);
      outs := new nat[MAX_QUERIES_COUNT](_ => 0);
      heap := new int[MAX_QUERIES_COUNT](_ => 0);
      buffer := new int[MAX_QUERIES_COUNT](_ => 0);
      gpuTimes := new int[MAX_QUERIES_COUNT](_ => 0);
      asked, marks, base := [], [], 0;
    }

    /** Start: the frames are reset, and the first flip begins the capture. */
    method Start()
      requires Valid()
      modifies this`state, this`queryIndex, this`asked, this`marks, this`base, frames
      ensures Valid() && state == Starting && asked == [] && marks == []
    {
      hide Place, Slot;
      queryIndex := 0;
      forall i | 0 <= i < NUM_FRAMES_DELAY {
        frames[i] := NO_FRAME;
      }
      state := Starting;
      asked, marks, base := [], [], frameNumber;
    }

    method Stop()
      requires Valid()
      modifies this`state
      ensures Valid() && state == Off
    {
      state := Off;
    }

    /** Node.QueryTimestamp: the slot of the next query. */
    method NextQuery(out: nat, stamp: int)
      requires Shaped() && Holds(outs[..], heap[..], asked) && queryIndex == |asked| % WORD
      modifies this`queryIndex, this`asked, outs, heap
      ensures Holds(outs[..], heap[..], asked) && asked == old(asked) + [Query(out, stamp)] && queryIndex == |asked| % WORD
    {
      hide Holds, Slot;
      WrappedSlot(|asked|);
      var index := queryIndex % MAX_QUERIES_COUNT;
      HoldsOn(outs[..], heap[..], asked, Query(out, stamp));
      queryIndex := (queryIndex + 1) % WORD;
      outs[index] := out;
      heap[index] := stamp;
      asked := asked + [Query(out, stamp)];
      OneMore(|asked| - 1);
    }

    lemma OneMore(n: nat)
      ensures (n % WORD + 1) % WORD == (n + 1) % WORD
    {
      DivMod(n, WORD);
      if n % WORD == WORD - 1 {
        DivModUnique(n + 1, n / WORD + 1, 0, WORD);
      } else {
        DivModUnique(n + 1, n / WORD, n % WORD + 1, WORD);
      }
    }

    /** Between flips: a query counts only while a capture is running. */
    method QueryTimestamp(out: nat, stamp: int)
      requires Valid()
      modifies this`queryIndex, this`asked, outs, heap
      ensures Valid() && asked == old(asked) + if state == Running then [Query(out, stamp)] else []
    {
      hide Holds, Slot, FramesHold, FramesResolved;
      if state == Running {
        AskedOn(buffer[..], asked, [Query(out, stamp)], marks);
        NextQuery(out, stamp);
      }
    }

    // ---------- Flip ----------

    /** On the GPU: the times of these slots go from the query heap to the buffer. */
    method ResolveQueryData(start: nat, count: nat)
      requires Shaped() && start + count <= MAX_QUERIES_COUNT
      modifies buffer
      ensures forall s :: 0 <= s < MAX_QUERIES_COUNT ==> buffer[s] == if start <= s < start + count then heap[s] else old(buffer[s])
    {
      forall s | start <= s < start + count {
        buffer[s] := heap[s];
      }
    }

    /** The range of the frame that ends, in one piece or in two. */
    method ResolveFrame(queryBegin: nat, queryEnd: nat, ghost begin: nat, ghost end: nat)
      requires Shaped() && queryBegin == begin % WORD && queryEnd == end % WORD && begin < end <= begin + MAX_QUERIES_COUNT
      modifies buffer
      ensures Took(old(buffer[..]), buffer[..], heap[..], QuerySlots(begin, end))
    {
      hide Slot, QuerySlots;
      SegmentsCover(begin, end);
      ghost var gs := Segments(queryBegin, queryEnd);
      TwoSegments(gs);
      var startIndex, finishIndex := queryBegin % MAX_QUERIES_COUNT, queryEnd % MAX_QUERIES_COUNT;
      if startIndex < finishIndex {
        assert Segment(startIndex, (queryEnd - queryBegin) % WORD) in gs;
        InSegment(gs[0]);
        ResolveQueryData(startIndex, (queryEnd - queryBegin) % WORD);
      } else {
        InSegment(gs[0]);
        InSegment(gs[1]);
        ResolveQueryData(startIndex, MAX_QUERIES_COUNT - startIndex);
        ResolveQueryData(0, finishIndex);
      }
    }

    lemma InSegment(g: Segment)
      ensures forall s :: s in SlotsOf(g) <==> g.start <= s < g.start + g.count
    {
      forall s | g.start <= s < g.start + g.count ensures s in SlotsOf(g) {
        assert SlotsOf(g)[s - g.start] == s;
      }
    }

    /** ResolveTimestamps: the times of these slots, converted, go where the queries wanted them. */
    method ResolveTimestamps(startIndex: nat, count: nat)
      requires Shaped() && startIndex + count <= MAX_QUERIES_COUNT
      modifies gpuTimes, this`written
      ensures written == old(written) + ResultsAt(clock, outs[..], buffer[..], SlotsOf(Segment(startIndex, count)))
    {
      hide CpuTimestamp;
      ghost var before, slots := written, SlotsOf(Segment(startIndex, count));
      if count != 0 {
        forall i | startIndex <= i < startIndex + count {
          gpuTimes[i] := buffer[i];
        }
        var index := startIndex;
        assert slots[..0] == [];
        while index < startIndex + count
          invariant startIndex <= index <= startIndex + count
          invariant forall i :: startIndex <= i < startIndex + count ==> gpuTimes[i] == buffer[i]
          invariant written == before + ResultsAt(clock, outs[..], buffer[..], slots[..index - startIndex])
        {
          written := written + [(outs[index], CpuTimestamp(clock, gpuTimes[index]))];
          assert slots[index - startIndex] == index;
          assert slots[..index - startIndex + 1] == slots[..index - startIndex] + [index];
          index := index + 1;
        }
        assert slots[..count] == slots;
      }
    }

    /** The results of the frame whose place is needed again, in one piece or in two. */
    method CopyFrame(frame: QueryFrame, ghost begin: nat, ghost end: nat)
      requires Shaped() && frame.start == begin % WORD && frame.count == end - begin && begin < end <= begin + MAX_QUERIES_COUNT
      modifies gpuTimes, this`written
      ensures (forall i :: 0 <= i < end - begin ==> 0 <= QuerySlots(begin, end)[i] < MAX_QUERIES_COUNT)
      ensures written == old(written) + ResultsAt(clock, outs[..], buffer[..], QuerySlots(begin, end))
    {
      hide Slot, ResultsAt, SlotsOf;
      CopiedCover(begin, end);
      ghost var gs := Copied(frame.start, frame.count);
      TwoSegments(gs);
      var resolveStart := frame.start % MAX_QUERIES_COUNT;
      var resolveFinish := resolveStart + frame.count;
      var first := (if resolveFinish < MAX_QUERIES_COUNT then resolveFinish else MAX_QUERIES_COUNT) - resolveStart;
      assert gs[0] == Segment(resolveStart, first);
      SlotBounds(begin, end);
      ResolveTimestamps(resolveStart, first);
      if resolveFinish > MAX_QUERIES_COUNT {
        ResolveTimestamps(0, resolveFinish - MAX_QUERIES_COUNT);
        SegmentBounds(gs[0]);
        SegmentBounds(gs[1]);
        ResultsAtConcat(clock, outs[..], buffer[..], SlotsOf(gs[0]), SlotsOf(gs[1]));
      }
    }

    lemma SlotBounds(begin: nat, end: nat)
      requires begin <= end
      ensures |QuerySlots(begin, end)| == end - begin
      ensures forall i :: 0 <= i < end - begin ==> 0 <= QuerySlots(begin, end)[i] < MAX_QUERIES_COUNT
    {
      hide Slot;
      forall i | 0 <= i < end - begin ensures 0 <= QuerySlots(begin, end)[i] < MAX_QUERIES_COUNT {
        assert QuerySlots(begin, end)[i] == Slot(begin + i);
      }
    }

    lemma SegmentBounds(g: Segment)
      requires g.start + g.count <= MAX_QUERIES_COUNT
      ensures forall i :: 0 <= i < |SlotsOf(g)| ==> 0 <= SlotsOf(g)[i] < MAX_QUERIES_COUNT
    {}

    /** The queries a flip issues itself: the end of the frame, if there is one, then its successor's begin and tag. */
    method FrameQueries(event: Target, start: nat, tag: nat, stamps: (int, int, int))
      requires Shaped() && Holds(outs[..], heap[..], asked) && queryIndex == |asked| % WORD
      modifies this`queryIndex, this`asked, outs, heap
      ensures Holds(outs[..], heap[..], asked) && queryIndex == |asked| % WORD
      ensures asked == old(asked) + (if event.To? then [Query(event.address, stamps.0)] else []) + [Query(start, stamps.1), Query(tag, stamps.2)]
    {
      hide Holds, Slot;
      if event.To? {
        NextQuery(event.address, stamps.0);
      }
      NextQuery(start, stamps.1);
      NextQuery(tag, stamps.2);
    }

    /** Frames of at most 2 * MAX_FRAME_EVENTS queries leave the slots of the last four alone. */
    lemma FewQueriesSuffice(marks: seq<nat>, asked: nat)
      requires Marked(marks, asked) && |marks| >= 4 && FewQueries(marks, asked)
      ensures asked <= marks[|marks| - 4] + MAX_QUERIES_COUNT
    {
      var n := |marks|;
      assert marks[n - 1] <= marks[n - 1 - 1] + 2048;
      assert marks[n - 2] <= marks[n - 2 - 1] + 2048;
      assert marks[n - 3] <= marks[n - 3 - 1] + 2048;
    }

    /** The frame that ends is resolved on the GPU, unless it began at the sentinel. */
    method EndFrame(queryBegin: nat, queryEnd: nat)
      requires Shaped() && queryEnd == |asked| % WORD && Holds(outs[..], heap[..], asked) && Marked(marks, |asked|)
      requires FramesResolved(buffer[..], asked, marks)
      requires marks != [] ==> marks[|marks| - 1] < |asked| <= marks[|marks| - 1] + MAX_QUERIES_COUNT
      requires queryBegin == if marks == [] then UNSET else marks[|marks| - 1] % WORD
      modifies buffer
      ensures FramesResolved(buffer[..], asked, marks + [|asked|])
    {
      hide Holds, Took, QuerySlots, FrameResolved;
      ghost var before := buffer[..];
      if queryBegin != UNSET {
        ResolveFrame(queryBegin, queryEnd, marks[|marks| - 1], |asked|);
        forall i | 0 <= i && |marks| - 4 <= i < |marks| ensures FrameResolved(buffer[..], asked, marks + [|asked|], i) {
          ResolvedOn(before, buffer[..], outs[..], heap[..], asked, marks, i);
        }
      } else {
        forall i | 0 <= i && |marks| - 4 <= i < |marks| ensures FrameResolved(buffer[..], asked, marks + [|asked|], i) {
          NotResolvedOn(buffer[..], asked, marks, i);
        }
      }
    }

    /** The frame whose place is needed again, begun four flips ago. */
    lemma FrameDue(fs: seq<QueryFrame>, next: nat)
      requires FramesHold(fs, base, marks) && Marked(marks, |asked|) && next == Place(base, |marks|)
      ensures next < |fs|
      ensures |marks| < 4 ==> fs[next].count == 0
      ensures |marks| >= 4 ==> fs[next].start == marks[|marks| - 4] % WORD && marks[|marks| - 4] < marks[|marks| - 3] <= |asked|
      ensures |marks| >= 4 ==> fs[next].count == if fs[next].start == UNSET then 0 else marks[|marks| - 3] - marks[|marks| - 4]
      ensures |marks| >= 4 ==> marks[|marks| - 3] <= marks[|marks| - 4] + MAX_QUERIES_COUNT
    {
      hide Place;
      var n := |marks|;
      PlaceAgain(base, n);
      assert FrameIs(fs[Place(base, n - 4)], marks, n - 4);
      if n >= 4 {
        assert marks[n - 3 - 1] < marks[n - 3];
        InTail(marks, |asked|, n - 3);
      }
    }

    /** The frame that ends at this flip. */
    lemma FrameEnding(fs: seq<QueryFrame>, now: nat)
      requires FramesHold(fs, base, marks) && now == Place(base, |marks| - 1)
      ensures now < |fs| && fs[now].frameEvent.To? == (marks != [])
      ensures fs[now].start == if marks == [] then UNSET else marks[|marks| - 1] % WORD
    {
      hide Place;
      assert FrameIs(fs[Place(base, |marks| - 1)], marks, |marks| - 1);
    }

    /** What is copied out at this flip. */
    ghost predicate Delivered(before: seq<(nat, int)>, after: seq<(nat, int)>, all: seq<Query>, ms: seq<nat>, number: nat)
      requires clock.frequencyGpu > 0
    {
      var n := |ms|;
      if n >= 4 && number >= NUM_FRAMES_DELAY && ms[n - 4] % WORD != UNSET then
        && ms[n - 4] < ms[n - 3] <= |all| && |after| == |before| + (ms[n - 3] - ms[n - 4])
        && (|all| <= ms[n - 4] + MAX_QUERIES_COUNT ==> after == before + Results(clock, all, ms[n - 4], ms[n - 3]))
      else after == before
    }

    /** The results of the frame that began four flips ago are written, every one of them, once there is such a frame. */
    ghost predicate DeliveredInFull(before: seq<(nat, int)>, after: seq<(nat, int)>, all: seq<Query>, ms: seq<nat>, number: nat)
      requires clock.frequencyGpu > 0
    {
      var n := |ms|;
      if n >= 4 && number >= NUM_FRAMES_DELAY && ms[n - 4] % WORD != UNSET then
        ms[n - 4] < ms[n - 3] <= |all| && after == before + Results(clock, all, ms[n - 4], ms[n - 3])
      else after == before
    }

    lemma FewQueriesDelivered(before: seq<(nat, int)>, after: seq<(nat, int)>, all: seq<Query>, ms: seq<nat>, number: nat)
      requires clock.frequencyGpu > 0 && Delivered(before, after, all, ms, number) && Marked(ms, |all|) && FewQueries(ms, |all|)
      ensures DeliveredInFull(before, after, all, ms, number)
    {
      hide Results, Marked, FewQueries;
      if |ms| >= 4 { FewQueriesSuffice(ms, |all|); }
    }

    method CopyDue(next: nat)
      requires Shaped() && next == Place(base, |marks|) && FramesHold(frames[..], base, marks) && Marked(marks, |asked|)
      requires Holds(outs[..], heap[..], asked) && FramesResolved(buffer[..], asked, marks + [|asked|])
      modifies gpuTimes, this`written
      ensures Delivered(old(written), written, asked, marks, frameNumber)
    {
      hide Place, FramesHold, Holds, Marked, FramesResolved, QuerySlots, CpuTimestamp;
      FrameDue(frames[..], next);
      if frameNumber >= NUM_FRAMES_DELAY && frames[next].count != 0 {
        ghost var begin, end := marks[|marks| - 4], marks[|marks| - 3];
        SlotBounds(begin, end);
        CopyFrame(frames[next], begin, end);
        if |asked| <= begin + MAX_QUERIES_COUNT {
          ResolvedOne(buffer[..], |marks| - 4);
          ResultsOf(clock, outs[..], heap[..], buffer[..], asked, begin, end, |asked|);
        }
      }
    }

    lemma ResolvedOne(b: seq<int>, i: nat)
      requires FramesResolved(b, asked, marks + [|asked|]) && |marks| - 4 <= i && i + 1 < |marks| && marks[i] % WORD != UNSET
      ensures Resolved(b, asked, marks[i], marks[i + 1], |asked|)
    {
      assert FrameResolved(b, asked, marks + [|asked|], i);
    }

    /** The frame that ends gets its count, and its successor begins. */
    method TurnFrames(now: nat, next: nat, event: nat, queryEnd: nat, ghost end: nat)
      requires now < frames.Length && next < frames.Length && queryEnd == end % WORD
      modifies frames
      ensures frames[..] == Flipped(old(frames[..]), now, next, event, end)
    {
      if frames[now].start != UNSET {
        frames[now] := frames[now].(count := (queryEnd - frames[now].start) % WORD);
      }
      frames[next] := QueryFrame(To(event), queryEnd, 0);
    }

    /** The part of Flip that is done while a capture is running. */
    method NextFrame(event: nat, start: nat, tag: nat, stamps: (int, int, int))
      requires Shaped() && Holds(outs[..], heap[..], asked) && FramesHold(frames[..], base, marks) && FramesResolved(buffer[..], asked, marks)
      requires queryIndex == |asked| % WORD && frameNumber == (base + |marks|) % WORD && Marked(marks, |asked|)
      requires marks != [] ==> |asked| + 3 <= marks[|marks| - 1] + MAX_QUERIES_COUNT
      modifies this`queryIndex, this`asked, this`marks, this`written, frames, outs, heap, buffer, gpuTimes
      ensures Holds(outs[..], heap[..], asked) && FramesHold(frames[..], base, marks) && FramesResolved(buffer[..], asked, marks)
      ensures queryIndex == |asked| % WORD && Marked(marks, |asked|) && marks == old(marks) + [|asked|]
      ensures old(asked) <= asked && |asked| == |old(asked)| + if old(marks) == [] then 2 else 3
      ensures Delivered(old(written), written, asked, old(marks), frameNumber)
    {
      hide Holds, FramesHold, FramesResolved, Place, Delivered, Marked, Flipped;
      PlacesNow(base, |marks|);
      var now, next := frameNumber % NUM_FRAMES_DELAY, (frameNumber + 1) % NUM_FRAMES_DELAY;
      FrameEnding(frames[..], now);
      ghost var more := (if marks == [] then [] else [Query(frames[now].frameEvent.address, stamps.0)]) + [Query(start, stamps.1), Query(tag, stamps.2)];
      MarkedAsked();
      AskedOn(buffer[..], asked, more, marks);
      FrameQueries(frames[now].frameEvent, start, tag, stamps);
      assert asked == old(asked) + more;
      EndFrame(frames[now].start, queryIndex);
      CopyDue(next);
      FlipFrames(frames[..], base, marks, event, |asked|);
      TurnFrames(now, next, event, queryIndex, |asked|);
      MarkedOn();
      marks := marks + [|asked|];
    }

    lemma MarkedAsked()
      requires Marked(marks, |asked|)
      ensures marks != [] ==> marks[|marks| - 1] <= |asked|
    {}

    lemma MarkedOn()
      requires Marked(marks, |asked|) && (marks != [] ==> marks[|marks| - 1] < |asked| <= marks[|marks| - 1] + MAX_QUERIES_COUNT)
      ensures Marked(marks + [|asked|], |asked|)
    {}

    lemma MarkedBefore(ms: seq<nat>, asked: nat)
      requires Marked(ms + [asked], asked)
      ensures Marked(ms, asked)
    {
      if ms != [] { assert (ms + [asked])[|ms| - 1] < (ms + [asked])[|ms|]; }
      forall i | 0 < i < |ms| ensures ms[i - 1] < ms[i] <= ms[i - 1] + MAX_QUERIES_COUNT {
        assert (ms + [asked])[i - 1] < (ms + [asked])[i];
      }
    }

    /** Flip. The queries of a frame must not outnumber the ring, as the program asserts. */
    method Flip(event: nat, start: nat, tag: nat, stamps: (int, int, int))
      requires Valid()
      requires state != Off && marks != [] ==> |asked| + 3 <= marks[|marks| - 1] + MAX_QUERIES_COUNT
      modifies this, frames, outs, heap, buffer, gpuTimes
      ensures Valid() && frameNumber == (old(frameNumber) + 1) % WORD
      ensures old(state) == Off ==> state == Off && written == old(written) && asked == old(asked) && marks == old(marks)
      ensures old(state) != Off ==>
                && state == Running && marks == old(marks) + [|asked|]
                && old(asked) <= asked && |asked| == |old(asked)| + (if old(marks) == [] then 2 else 3)
                && Delivered(old(written), written, asked, old(marks), old(frameNumber))
                && (FewQueries(old(marks), |asked|) ==> DeliveredInFull(old(written), written, asked, old(marks), old(frameNumber)))
    {
      hide Holds, FramesHold, FramesResolved, Place, Delivered, DeliveredInFull, FewQueries, Marked;
      if state == Starting {
        state := Running;
      }
      if state == Running {
        NextFrame(event, start, tag, stamps);
        if FewQueries(old(marks), |asked|) {
          MarkedBefore(old(marks), |asked|);
          FewQueriesDelivered(old(written), written, asked, old(marks), old(frameNumber));
        }
        OneMore(base + |old(marks)|);
      }
      frameNumber := (frameNumber + 1) % WORD;
    }
  }
}
