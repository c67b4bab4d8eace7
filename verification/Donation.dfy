/** The two loops that cut a queue of tasks into ranges: balance_work, for the idle workers found, and the span enqueue,
    for all workers. No worker refuses here; the interleavings, and refusals, are in module ThreadPool. */
module Donation {
  import opened Slots

  /** Where range `i` begins when the first `extra` of the ranges of size `q` get one more. */
  function Start(q: nat, extra: nat, i: nat): (s: nat)
    ensures i == 0 ==> s == 0
  {
    i * q + if i < extra then i else extra
  }

  /** The ranges are adjacent, and have size `q` or `q + 1`, the larger ones first. */
  lemma StartStep(q: nat, extra: nat, i: nat)
    ensures Start(q, extra, i + 1) == Start(q, extra, i) + if i < extra then q + 1 else q
  {
    assert (i + 1) * q == i * q + q;
  }

  lemma {:induction false} StartGrows(q: nat, extra: nat, i: nat, k: nat)
    requires i <= k
    ensures Start(q, extra, i) <= Start(q, extra, k)
    decreases k - i
  {
    hide Start;
    if i < k {
      StartStep(q, extra, i);
      StartGrows(q, extra, i + 1, k);
    }
  }

  /** With `k` receivers and the donor, everything but the donor's share is handed out. */
  lemma DonorShare(n: nat, k: nat)
    ensures var q := n / (k + 1);
            n - q * (k + 1) <= k && Start(q, n - q * (k + 1), k) == n - q && (k < n ==> q >= 1)
  {
    var q := n / (k + 1);
    assert q * (k + 1) == q * k + q;
    assert n - q * (k + 1) == n % (k + 1);
    if k < n { assert q >= 1; }
  }

  /** With `k` receivers and no donor, everything is handed out. */
  lemma AllShares(n: nat, k: nat)
    requires k > 0
    ensures var q := n / k;
            n - q * k <= k - 1 && Start(q, n - q * k, k) == n && (k <= n ==> q >= 1)
  {
    var q := n / k;
    assert n - q * k == n % k;
    if k <= n { assert q >= 1; }
  }

  /** What the receivers get, one after the other. */
  function Dealt(tasks: seq<Slot>, q: nat, extra: nat, k: nat): seq<Slot>
    requires Start(q, extra, k) <= |tasks|
  {
    if k == 0 then [] else
      StartGrows(q, extra, k - 1, k);
      Dealt(tasks, q, extra, k - 1) + tasks[Start(q, extra, k - 1)..Start(q, extra, k)]
  }

  /** The ranges put together again are the front of the queue: nothing is lost, repeated or reordered. */
  lemma {:induction false} DealtIsPrefix(tasks: seq<Slot>, q: nat, extra: nat, k: nat)
    requires Start(q, extra, k) <= |tasks|
    ensures Dealt(tasks, q, extra, k) == tasks[..Start(q, extra, k)]
  {
    if k > 0 {
      StartGrows(q, extra, k - 1, k);
      DealtIsPrefix(tasks, q, extra, k - 1);
    }
    hide Start;
  }

  /** Worker `j` has received what it should, given the receivers served so far. */
  ghost predicate Served(before: seq<seq<Slot>>, now: seq<seq<Slot>>, tasks: seq<Slot>, to: seq<nat>, q: nat, extra: nat, served: nat)
    requires served <= |to| && Start(q, extra, served) <= |tasks|
  {
    && |now| == |before| && (forall p :: 0 <= p < |to| ==> to[p] < |now|)
    && (forall p :: 0 <= p < served ==> Range(before, now, tasks, to[p], q, extra, p))
    && forall j :: 0 <= j < |now| && j !in to[..served] ==> now[j] == before[j]
  }

  /** Worker `j` has received range `p`. */
  ghost predicate Range(before: seq<seq<Slot>>, now: seq<seq<Slot>>, tasks: seq<Slot>, j: nat, q: nat, extra: nat, p: nat) {
    && j < |before| == |now| && Start(q, extra, p) <= Start(q, extra, p + 1) <= |tasks|
    && now[j] == before[j] + tasks[Start(q, extra, p)..Start(q, extra, p + 1)]
  }

  class Pool {
    /** The public queues of the workers. */
    const queues: array<seq<Slot>>

    constructor (workers: nat)
      ensures fresh(queues) && queues.Length == workers
    {
      queues := new seq<Slot>[workers](_ => []);
    }

    /** enqueue_foreign: the range moves to the end of the public queue. */
    method EnqueueForeign(j: nat, range: seq<Slot>)
      requires j < queues.Length
      modifies queues
      ensures queues[..] == old(queues[..])[j := old(queues[j]) + range]
    {
      queues[j] := queues[j] + range;
    }
  }

  lemma ServeOne(before: seq<seq<Slot>>, now: seq<seq<Slot>>, next: seq<seq<Slot>>, tasks: seq<Slot>, to: seq<nat>, q: nat, extra: nat, p: nat)
    requires p < |to| && Start(q, extra, p) <= Start(q, extra, p + 1) <= |tasks| && Served(before, now, tasks, to, q, extra, p)
    requires forall a, b :: 0 <= a < b < |to| ==> to[a] != to[b]
    requires next == now[to[p] := now[to[p]] + tasks[Start(q, extra, p)..Start(q, extra, p + 1)]]
    ensures Served(before, next, tasks, to, q, extra, p + 1)
  {
    hide Start;
    assert to[p] !in to[..p];
    assert to[..p + 1] == to[..p] + [to[p]];
    forall r | 0 <= r < p + 1 ensures Range(before, next, tasks, to[r], q, extra, r) {
      if r < p { assert Range(before, now, tasks, to[r], q, extra, r); }
    }
  }

  class Donor {
    var own: seq<Slot>
    var idleList: seq<nat>

    constructor ()
      ensures own == [] && idleList == []
    {
      own, idleList := [], [];
    }

    /** The donation loop: every worker of the list gets its range, whose slots are left empty. */
    method Donate(pool: Pool) returns (begin: nat)
      requires own != [] && AllFull(own) && 0 < |idleList| < |own|
      requires forall p :: 0 <= p < |idleList| ==> idleList[p] < pool.queues.Length
      requires forall a, b :: 0 <= a < b < |idleList| ==> idleList[a] != idleList[b]
      modifies pool.queues, this`own
      ensures |own| == old(|own|) && begin == |own| - |own| / (|idleList| + 1)
      ensures own == Empty(begin) + old(own)[begin..]
      ensures var q := |own| / (|idleList| + 1);
              var extra := |own| - q * (|idleList| + 1);
              && Start(q, extra, |idleList|) == begin
              && Served(old(pool.queues[..]), pool.queues[..], old(own), idleList, q, extra, |idleList|)
    {
      hide Start, Served, AllFull;
      ghost var tasks, before := own, pool.queues[..];
      var taskCount, k := |own|, |idleList|;
      var donationCount: nat := taskCount / (k + 1);
      DonorShare(taskCount, k);
      var extra: nat := taskCount - donationCount * (k + 1);
      ghost var extra0 := extra;
      begin := 0;
      var end := donationCount;
      var i := 0;
      NobodyServed(before, tasks, idleList, donationCount, extra0);
      while i < k
        invariant 0 <= i <= k && idleList == old(idleList) && begin == Start(donationCount, extra0, i) <= taskCount
        invariant extra == (if i < extra0 then extra0 - i else 0) && end == begin + donationCount
        invariant own == Empty(begin) + tasks[begin..]
        invariant Served(before, pool.queues[..], tasks, idleList, donationCount, extra0, i)
      {
        StartStep(donationCount, extra0, i);
        StartGrows(donationCount, extra0, i + 1, k);
        if extra != 0 {
          end := end + 1;
          extra := extra - 1;
        }
        ghost var now := pool.queues[..];
        assert begin <= end && own[begin..end] == tasks[begin..end];
        pool.EnqueueForeign(idleList[i], own[begin..end]);
        ServeOne(before, now, pool.queues[..], tasks, idleList, donationCount, extra0, i);
        own := own[..begin] + Empty(end - begin) + own[end..];
        MoreEmpty(tasks, begin, end);
        begin := end;
        end := end + donationCount;
        i := i + 1;
      }
    }

    lemma MoreEmpty(tasks: seq<Slot>, begin: nat, end: nat)
      requires begin <= end <= |tasks|
      ensures var was := Empty(begin) + tasks[begin..];
              was[..begin] + Empty(end - begin) + was[end..] == Empty(end) + tasks[end..]
    {}

    lemma NobodyServed(before: seq<seq<Slot>>, tasks: seq<Slot>, to: seq<nat>, q: nat, extra: nat)
      requires forall p :: 0 <= p < |to| ==> to[p] < |before|
      ensures Start(q, extra, 0) <= |tasks| && Served(before, before, tasks, to, q, extra, 0)
    {}

    /** balance_work, once the idle workers are known: the donor keeps the last of `idle + 1` shares, at least one task. */
    method BalanceWork(pool: Pool, found: seq<nat>)
      requires AllFull(own) && idleList == []
      requires |found| < pool.queues.Length && (|own| >= 2 ==> |found| < |own|)
      requires forall p :: 0 <= p < |found| ==> found[p] < pool.queues.Length
      requires forall a, b :: 0 <= a < b < |found| ==> found[a] != found[b]
      modifies pool.queues, this
      ensures idleList == [] && AllFull(own)
      ensures old(|own|) < 2 || found == [] ==> own == old(own) && pool.queues[..] == old(pool.queues[..])
      ensures old(|own|) >= 2 && found != [] ==>
                var n, k := old(|own|), |found|;
                var q := n / (k + 1);
                var extra := n - q * (k + 1);
                && q >= 1 && extra <= k && |own| == q && own == old(own)[n - q..] && Start(q, extra, k) == n - q
                && Served(old(pool.queues[..]), pool.queues[..], old(own), found, q, extra, k)
    {
      hide Start, Served;
      if |own| < 2 || pool.queues.Length <= 1 {
        return;
      }
      idleList := found;
      if |idleList| == 0 {
        return;
      }
      DonorShare(|own|, |idleList|);
      var begin := Donate(pool);
      own := own[begin..];
      assert own == old(own)[begin..];
      idleList := [];
    }
  }

  /** The span enqueue, when there are at least as many tasks as workers: worker `i` gets range `i`, and all is handed out. */
  method EnqueueSpan(pool: Pool, tasks: seq<Slot>)
    requires 0 < pool.queues.Length <= |tasks|
    modifies pool.queues
    ensures var w := pool.queues.Length;
            var q := |tasks| / w;
            var extra := |tasks| - q * w;
            && q >= 1 && extra < w && Start(q, extra, w) == |tasks|
            && forall i :: 0 <= i < w ==> Range(old(pool.queues[..]), pool.queues[..], tasks, i, q, extra, i)
  {
    hide Start;
    ghost var before := pool.queues[..];
    var w := pool.queues.Length;
    AllShares(|tasks|, w);
    var donationCount: nat := |tasks| / w;
    var extra: nat := |tasks| - donationCount * w;
    ghost var extra0 := extra;
    var begin, end, i := 0, donationCount, 0;
    while i < w
      invariant 0 <= i <= w && begin == Start(donationCount, extra0, i)
      invariant extra == (if i < extra0 then extra0 - i else 0) && end == begin + donationCount
      invariant forall j :: 0 <= j < i ==> Range(before, pool.queues[..], tasks, j, donationCount, extra0, j)
      invariant forall j :: i <= j < w ==> pool.queues[j] == before[j]
    {
      StartStep(donationCount, extra0, i);
      StartGrows(donationCount, extra0, i + 1, w);
      if extra != 0 {
        end := end + 1;
        extra := extra - 1;
      }
      ghost var now := pool.queues[..];
      pool.EnqueueForeign(i, tasks[begin..end]);
      forall j | 0 <= j < i + 1 ensures Range(before, pool.queues[..], tasks, j, donationCount, extra0, j) {
        if j < i { assert Range(before, now, tasks, j, donationCount, extra0, j); }
      }
      begin := end;
      end := end + donationCount;
      i := i + 1;
    }
  }

  /** Any two ranges differ by at most one task, and none is empty. */
  lemma FairShares(q: nat, extra: nat, i: nat, j: nat)
    requires q >= 1
    ensures var a, b := Start(q, extra, i + 1) - Start(q, extra, i), Start(q, extra, j + 1) - Start(q, extra, j);
            a >= 1 && b >= 1 && a - b <= 1 && b - a <= 1 && (i <= j ==> a >= b)
  {
    hide Start;
    StartStep(q, extra, i);
    StartStep(q, extra, j);
  }
}
