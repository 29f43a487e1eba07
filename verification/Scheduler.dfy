/** The time-execution engine: recurring tasks with an interval, an optional cap on the number
    of executions, cancellation, and a reward credited per execution. */
module Scheduler {
  import opened Arith
  import opened Bytes
  import opened Ledger
  import opened Text
  import opened Wrappers

  const MIN_INTERVAL := 100

  type Address = seq<byte>

  // A task is named by the hash of a text; hashing is taken to be injective, so the text itself
  // serves as the name.
  type TaskId = seq<byte>

  datatype Task = Task(
    caller: Address, feed: seq<byte>, interval: u64, nextBlock: u64, lastExecuted: u64,
    executionCount: nat, maxExecutions: u64, reward: u64, active: bool)

  function IdText(caller: Address, feed: seq<byte>, start: u64, number: nat): (t: TaskId) {
    caller + [COLON] + Hex(feed) + [COLON] + Decimal(start) + [COLON] + Decimal(number)
  }

  // ---------- One task ----------

  predicate Exhausted(t: Task) {
    t.maxExecutions > 0 && t.executionCount >= t.maxExecutions
  }

  predicate Due(t: Task, b: u64) {
    t.active && !Exhausted(t) && t.nextBlock <= b
  }

  // What block b does to a task: one that has used up its cap is stopped. The next due block is computed in 64 bits.
  function Tick(t: Task, b: u64): (r: Task) {
    if t.active && Exhausted(t) then t.(active := false) else
    if Due(t, b) then
      t.(executionCount := t.executionCount + 1, lastExecuted := b, nextBlock := Wrap64(b + t.interval))
    else t
  }

  lemma CapStops(t: Task, b: u64)
    requires 0 < t.maxExecutions <= t.executionCount
    ensures Tick(t, b) == t.(active := false)
  {
  }

  function Ticks(t: Task, bs: seq<u64>): (r: Task) {
    if bs == [] then t else Tick(Ticks(t, bs[..|bs| - 1]), bs[|bs| - 1])
  }

  lemma TicksStep(t: Task, bs: seq<u64>, b: u64)
    ensures Ticks(t, bs + [b]) == Tick(Ticks(t, bs), b)
  {
    assert (bs + [b])[..|bs|] == bs;
  }

  function Range(low: nat, n: nat): (bs: seq<u64>)
    requires low + n <= TWO_64
    ensures |bs| == n && forall i :: 0 <= i < n ==> bs[i] == low + i
  {
    seq(n, i requires 0 <= i < n => low + i)
  }

  predicate Fresh(t: Task) {
    t.active && t.executionCount == 0 && t.interval >= MIN_INTERVAL
  }

  // How often a task first due at block `start` is to run up to and including block b.
  function Expected(start: nat, interval: nat, cap: nat, b: nat): (n: nat)
    requires 0 < interval
  {
    if b < start then 0 else
      QuotientAtLeast(b - start, interval, 0);
      var n := (b - start) / interval + 1;
      if cap > 0 && cap < n then cap else n
  }

  // The next execution is later than the current block exactly when the sum does not wrap.
  lemma NextIsLater(t: Task, b: u64)
    requires Due(t, b) && t.interval > 0
    ensures b < Tick(t, b).nextBlock <==> b + t.interval < TWO_64
  {
    if b + t.interval >= TWO_64 {
      assert Wrap64(b + t.interval) == b + t.interval - TWO_64;
    }
  }

  // A task that would, without a cap, have run k + 1 times and be due next at block `due`, if that
  // block is a 64-bit number.
  ghost predicate RanTo(t0: Task, k: nat, due: nat, t: Task) {
    && t.interval == t0.interval && t.maxExecutions == t0.maxExecutions
    && if t0.maxExecutions > 0 && k + 1 >= t0.maxExecutions
       then t.executionCount == t0.maxExecutions
       else t.active && t.executionCount == k + 1 && t.nextBlock == Wrap64(due)
  }

  // After k + 1 executions there is none left, or the next one is due at a 64-bit block.
  predicate InTime(t0: Task, k: nat, due: nat) {
    due < TWO_64 || (t0.maxExecutions > 0 && k + 1 >= t0.maxExecutions)
  }

  lemma StepRanTo(t0: Task, k: nat, due: nat, t: Task, b: u64)
    requires RanTo(t0, k, due, t) && b <= due && InTime(t0, k, due)
    ensures if b == due then RanTo(t0, k + 1, b + t0.interval, Tick(t, b)) else RanTo(t0, k, due, Tick(t, b))
  {
  }

  // A task as it stands after being called at every block from its start through block b.
  ghost predicate OnSchedule(t0: Task, start: nat, b: nat, t: Task)
    requires t0.interval > 0 && start <= b
  {
    NextQuotient(b - start, t0.interval);
    var k := (b - start) / t0.interval;
    RanTo(t0, k, start + t0.interval * (k + 1), t)
  }

  // Block b is before the start, or is an execution itself, or the executions up to it are followed by
  // none or by one at a 64-bit block.
  predicate KeepsPace(t0: Task, start: nat, b: nat)
    requires t0.interval > 0
  {
    b < start ||
    (NextQuotient(b - start, t0.interval);
     var k := (b - start) / t0.interval;
     start + t0.interval * k == b || InTime(t0, k, start + t0.interval * (k + 1)))
  }

  lemma PaceBefore(t0: Task, start: nat, b: nat)
    requires t0.interval > 0 && b + 1 < TWO_64 && KeepsPace(t0, start, b + 1)
    ensures KeepsPace(t0, start, b)
  {
    if start <= b {
      NextInTime(t0, start, b);
    }
  }

  lemma NextInTime(t0: Task, start: nat, b: nat)
    requires t0.interval > 0 && start <= b && b + 1 < TWO_64 && KeepsPace(t0, start, b + 1)
    ensures var k := (b - start) / t0.interval;
            0 <= k && b < start + t0.interval * (k + 1) && InTime(t0, k, start + t0.interval * (k + 1))
  {
    var i, k := t0.interval, (b - start) / t0.interval;
    NextQuotient(b - start, i);
    Distribute(i, k, 1);
  }

  lemma StepOnSchedule(t0: Task, start: nat, b: nat, t: Task)
    requires t0.interval > 0 && start <= b && b + 1 < TWO_64 && KeepsPace(t0, start, b + 1)
    requires OnSchedule(t0, start, b, t)
    ensures OnSchedule(t0, start, b + 1, Tick(t, b + 1))
  {
    var i, k := t0.interval, (b - start) / t0.interval;
    NextInTime(t0, start, b);
    NextQuotient(b - start, i);
    Distribute(i, k + 1, 1);
    StepRanTo(t0, k, start + i * (k + 1), t, b + 1);
  }

  lemma CountOnSchedule(t0: Task, start: nat, b: nat, t: Task)
    requires t0.interval > 0 && start <= b && OnSchedule(t0, start, b, t)
    ensures t.executionCount == Expected(start, t0.interval, t0.maxExecutions, b)
  {
    NextQuotient(b - start, t0.interval);
  }

  // After n calls, at blocks first, first + 1, ...: nothing yet, or on schedule. A task that was
  // due before the first call starts with it.
  ghost predicate OnTrack(t0: Task, first: nat, n: nat, t: Task)
    requires t0.interval > 0
  {
    if first + n <= StartOf(t0, first) then t == t0 else OnSchedule(t0, StartOf(t0, first), first + n - 1, t)
  }

  lemma NextBlock(t0: Task, first: nat, n: nat)
    requires 0 < n && first + n <= TWO_64
    ensures Ticks(t0, Range(first, n)) == Tick(Ticks(t0, Range(first, n - 1)), first + n - 1)
  {
    assert Range(first, n) == Range(first, n - 1) + [first + n - 1];
    TicksStep(t0, Range(first, n - 1), first + n - 1);
  }

  // The task is in pace at the last of n calls, if there is one.
  predicate InPace(t0: Task, first: nat, n: nat)
    requires t0.interval > 0
  {
    n > 0 ==> KeepsPace(t0, StartOf(t0, first), first + n - 1)
  }

  lemma InPaceBefore(t0: Task, first: nat, n: nat)
    requires t0.interval > 0 && 0 < n && first + n <= TWO_64 && InPace(t0, first, n)
    ensures InPace(t0, first, n - 1)
  {
    if n > 1 {
      PaceBefore(t0, StartOf(t0, first), first + n - 2);
    }
  }

  lemma TrackStep(t0: Task, first: nat, n: nat, t: Task)
    requires Fresh(t0) && 0 < n && first + n <= TWO_64 && OnTrack(t0, first, n - 1, t) && InPace(t0, first, n)
    ensures OnTrack(t0, first, n, Tick(t, first + n - 1))
  {
    var b, start := first + n - 1, StartOf(t0, first);
    if start < b {
      StepOnSchedule(t0, start, b - 1, t);
    } else if start == b {
      FirstRun(t0, b);
    }
  }

  // Called at every block from `first` on, a task that keeps pace is on track.
  lemma {:induction false} EveryBlock(t0: Task, first: nat, n: nat)
    requires Fresh(t0) && first + n <= TWO_64 && InPace(t0, first, n)
    ensures OnTrack(t0, first, n, Ticks(t0, Range(first, n)))
  {
    if n == 0 {
      assert Range(first, 0) == [];
    } else {
      InPaceBefore(t0, first, n);
      EveryBlock(t0, first, n - 1);
      TrackStep(t0, first, n, Ticks(t0, Range(first, n - 1)));
      NextBlock(t0, first, n);
    }
  }

  lemma {:induction false} CountGrows(t0: Task, first: nat, m: nat, n: nat)
    requires m <= n && first + n <= TWO_64
    ensures Ticks(t0, Range(first, m)).executionCount <= Ticks(t0, Range(first, n)).executionCount
  {
    if m < n {
      CountGrows(t0, first, m, n - 1);
      NextBlock(t0, first, n);
    }
  }

  // The last execution that is scheduled up to block b.
  function LastOf(t0: Task, start: nat, b: nat): (last: nat)
    requires t0.interval > 0 && start <= b
    ensures start <= last <= b && (last - start) / t0.interval == (b - start) / t0.interval
  {
    var i := t0.interval;
    NextQuotient(b - start, i);
    var k := (b - start) / i;
    MulMonotone(i, 0, k);
    Distribute(i, k, 1);
    QuotientAtLeast(start + i * k - start, i, k);
    QuotientAtLeast(start + i * k - start, i, k + 1);
    start + i * k
  }

  // Once the next block has wrapped, the task is due at the same and at every later block.
  lemma DueAgain(t: Task, b: u64)
    requires t.active && !Exhausted(t) && t.nextBlock <= b && b + t.interval >= TWO_64
    ensures Due(t, b) && Tick(t, b).active && Tick(t, b).nextBlock <= b
  {
    assert Wrap64(b + t.interval) == b + t.interval - TWO_64;
  }

  // A task is in pace at the last execution scheduled up to block b. If it is out of pace at b, that
  // execution wraps its next block and the very next block runs it once too often.
  lemma LastInPace(t0: Task, start: nat, b: u64)
    requires t0.interval > 0 && !KeepsPace(t0, start, b)
    ensures LastOf(t0, start, b) < b && KeepsPace(t0, start, LastOf(t0, start, b))
  {
  }

  lemma RunsPast(t0: Task, start: nat, b: u64, t: Task)
    requires t0.interval > 0 && !KeepsPace(t0, start, b) && OnSchedule(t0, start, LastOf(t0, start, b), t)
    ensures LastOf(t0, start, b) < b
    ensures Tick(t, LastOf(t0, start, b) + 1).executionCount > Expected(start, t0.interval, t0.maxExecutions, b)
  {
    var last, k := LastOf(t0, start, b), (b - start) / t0.interval;
    NextQuotient(b - start, t0.interval);
    Distribute(t0.interval, k, 1);
    assert t.nextBlock == Wrap64(last + t0.interval) && t.executionCount == k + 1;
    DueAgain(t, last + 1);
  }

  lemma ScheduledAt(t0: Task, first: nat, b: u64)
    requires Fresh(t0) && StartOf(t0, first) <= b && KeepsPace(t0, StartOf(t0, first), b)
    ensures OnSchedule(t0, StartOf(t0, first), b, Ticks(t0, Range(first, b - first + 1)))
  {
    EveryBlock(t0, first, b - first + 1);
  }

  lemma RunsAgain(t0: Task, first: nat, n: nat)
    requires Fresh(t0) && 0 < n && first + n <= TWO_64 && !KeepsPace(t0, StartOf(t0, first), first + n - 1)
    ensures Ticks(t0, Range(first, n)).executionCount
          > Expected(StartOf(t0, first), t0.interval, t0.maxExecutions, first + n - 1)
  {
    var start, b := StartOf(t0, first), first + n - 1;
    var last := LastOf(t0, start, b);
    var m := last - first + 1;
    LastInPace(t0, start, b);
    ScheduledAt(t0, first, last);
    RunsPast(t0, start, b, Ticks(t0, Range(first, m)));
    NextBlock(t0, first, m + 1);
    CountGrows(t0, first, m + 1, n);
  }

  // Called at every block, a task has run as often as expected exactly when it keeps pace.
  lemma EveryBlockCount(t0: Task, first: nat, n: nat)
    requires Fresh(t0) && 0 < n && first + n <= TWO_64
    ensures Ticks(t0, Range(first, n)).executionCount
         == Expected(StartOf(t0, first), t0.interval, t0.maxExecutions, first + n - 1)
       <==> KeepsPace(t0, StartOf(t0, first), first + n - 1)
  {
    if KeepsPace(t0, StartOf(t0, first), first + n - 1) {
      if StartOf(t0, first) <= first + n - 1 {
        ScheduledAt(t0, first, first + n - 1);
        CountOnSchedule(t0, StartOf(t0, first), first + n - 1, Ticks(t0, Range(first, n)));
      } else {
        EveryBlock(t0, first, n);
      }
    } else {
      RunsAgain(t0, first, n);
    }
  }

  function StartOf(t: Task, first: nat): (n: nat) {
    if t.nextBlock < first then first else t.nextBlock
  }

  lemma FirstRun(t0: Task, b: u64)
    requires Fresh(t0) && t0.nextBlock <= b
    ensures OnSchedule(t0, b, b, Tick(t0, b))
  {
    assert 0 / t0.interval == 0;
    assert t0.interval * (0 + 1) == t0.interval;
  }

  // The blocks at which a task runs.
  function Executions(t0: Task, bs: seq<u64>): (xs: seq<u64>) {
    if bs == [] then [] else
      var before, b := bs[..|bs| - 1], bs[|bs| - 1];
      Executions(t0, before) + (if Due(Ticks(t0, before), b) then [b] else [])
  }

  predicate Spaced(xs: seq<u64>, gap: nat) {
    forall i :: 0 <= i < |xs| - 1 ==> xs[i] + gap <= xs[i + 1]
  }

  ghost predicate UpTo(bs: seq<u64>, last: u64) {
    forall i :: 0 <= i < |bs| ==> bs[i] <= last
  }

  // While no execution can wrap, and however calls skip blocks, executions are at least one interval
  // apart and never more than expected of a task that is called at every block.
  lemma SparseCalls(t0: Task, bs: seq<u64>, last: u64)
    requires Fresh(t0) && last + t0.interval < TWO_64 && UpTo(bs, last)
    ensures var xs, t := Executions(t0, bs), Ticks(t0, bs);
            && Spaced(xs, t0.interval) && t.executionCount == |xs|
            && t.executionCount <= Expected(t0.nextBlock, t0.interval, t0.maxExecutions, last)
  {
    SparseInvariant(t0, bs, last);
    var xs := Executions(t0, bs);
    if xs != [] {
      ExpectedAtLeast(t0.nextBlock, t0.interval, t0.maxExecutions, last, |xs|);
    }
  }

  // Whatever the calls, every execution is counted, and a cap is kept.
  lemma {:induction false} ExecutionsCounted(t0: Task, bs: seq<u64>)
    requires Fresh(t0)
    ensures var xs, t := Executions(t0, bs), Ticks(t0, bs);
            && t.executionCount == |xs| && t.interval == t0.interval && t.maxExecutions == t0.maxExecutions
            && (t0.maxExecutions > 0 ==> |xs| <= t0.maxExecutions)
            && (xs == [] ==> t.nextBlock == t0.nextBlock)
  {
    if bs != [] {
      ExecutionsCounted(t0, bs[..|bs| - 1]);
    }
  }

  // A task notes its last execution.
  lemma {:induction false} LastIsNoted(t0: Task, bs: seq<u64>)
    ensures var xs, t := Executions(t0, bs), Ticks(t0, bs);
            t.lastExecuted == if xs == [] then t0.lastExecuted else xs[|xs| - 1]
  {
    if bs != [] {
      LastIsNoted(t0, bs[..|bs| - 1]);
    }
  }

  lemma {:induction false} NeverDue(t0: Task, bs: seq<u64>, last: u64)
    requires Fresh(t0) && UpTo(bs, last) && last < t0.nextBlock
    ensures Executions(t0, bs) == []
  {
    if bs != [] {
      NeverDue(t0, bs[..|bs| - 1], last);
      ExecutionsCounted(t0, bs[..|bs| - 1]);
    }
  }

  function Repeated(b: u64, m: nat): (bs: seq<u64>)
    ensures UpTo(bs, b)
  {
    if m == 0 then [] else Repeated(b, m - 1) + [b]
  }

  lemma ExecutionsStep(t0: Task, bs: seq<u64>, b: u64)
    ensures Executions(t0, bs + [b]) == Executions(t0, bs) + if Due(Ticks(t0, bs), b) then [b] else []
  {
    assert (bs + [b])[..|bs|] == bs;
  }

  // Every call has run the task, and it is due again.
  ghost predicate RanEach(t0: Task, bs: seq<u64>, last: u64) {
    && Executions(t0, bs) == bs
    && Ticks(t0, bs).active && Ticks(t0, bs).nextBlock <= last
  }

  lemma RanOneMore(t0: Task, bs: seq<u64>, last: u64)
    requires Fresh(t0) && last + t0.interval >= TWO_64 && RanEach(t0, bs, last)
    requires t0.maxExecutions > 0 ==> |bs| < t0.maxExecutions
    ensures RanEach(t0, bs + [last], last)
  {
    ExecutionsCounted(t0, bs);
    DueAgain(Ticks(t0, bs), last);
    TicksStep(t0, bs, last);
    ExecutionsStep(t0, bs, last);
  }

  // Calls at one and the same block all run, up to the cap.
  lemma {:induction false} RunsEveryCall(t0: Task, last: u64, m: nat)
    requires Fresh(t0) && t0.nextBlock <= last && last + t0.interval >= TWO_64
    requires t0.maxExecutions > 0 ==> m <= t0.maxExecutions
    ensures RanEach(t0, Repeated(last, m), last) && |Repeated(last, m)| == m
  {
    if m > 0 {
      RunsEveryCall(t0, last, m - 1);
      RanOneMore(t0, Repeated(last, m - 1), last);
    }
  }

  ghost predicate AlwaysSpaced(t0: Task, last: u64) {
    forall bs: seq<u64> :: UpTo(bs, last) ==> Spaced(Executions(t0, bs), t0.interval)
  }

  ghost predicate NeverTooOften(t0: Task, last: u64)
    requires t0.interval > 0
  {
    forall bs: seq<u64> :: UpTo(bs, last) ==>
      Ticks(t0, bs).executionCount <= Expected(t0.nextBlock, t0.interval, t0.maxExecutions, last)
  }

  // Executions are one interval apart in all calls up to a block exactly when no execution up to it can
  // wrap its next block, or there can be no second one.
  lemma SpacingExact(t0: Task, last: u64)
    requires Fresh(t0)
    ensures AlwaysSpaced(t0, last)
       <==> last + t0.interval < TWO_64 || last < t0.nextBlock || t0.maxExecutions == 1
  {
    if last + t0.interval < TWO_64 || last < t0.nextBlock || t0.maxExecutions == 1 {
      forall bs: seq<u64> | UpTo(bs, last) ensures Spaced(Executions(t0, bs), t0.interval) {
        if last < t0.nextBlock {
          NeverDue(t0, bs, last);
        } else if t0.maxExecutions == 1 {
          ExecutionsCounted(t0, bs);
        } else {
          SparseCalls(t0, bs, last);
        }
      }
    } else {
      RunsEveryCall(t0, last, 2);
      var xs := Executions(t0, Repeated(last, 2));
      assert xs[0] == last && xs[1] == last;
      assert UpTo(Repeated(last, 2), last) && !Spaced(xs, t0.interval);
    }
  }

  // The cap is reached by block `last` even when every execution is on schedule.
  predicate CapWithin(t0: Task, last: u64)
    requires t0.interval > 0
  {
    t0.maxExecutions > 0 && t0.maxExecutions == Expected(t0.nextBlock, t0.interval, t0.maxExecutions, last)
  }

  // The expected count bounds all calls up to a block exactly when no execution up to it can wrap its
  // next block, or the cap is within that count.
  lemma CountBoundExact(t0: Task, last: u64)
    requires Fresh(t0)
    ensures NeverTooOften(t0, last)
       <==> last + t0.interval < TWO_64 || last < t0.nextBlock || CapWithin(t0, last)
  {
    var expected := Expected(t0.nextBlock, t0.interval, t0.maxExecutions, last);
    if last + t0.interval < TWO_64 || last < t0.nextBlock || CapWithin(t0, last) {
      forall bs: seq<u64> | UpTo(bs, last) ensures Ticks(t0, bs).executionCount <= expected {
        ExecutionsCounted(t0, bs);
        if last < t0.nextBlock {
          NeverDue(t0, bs, last);
        } else if last + t0.interval < TWO_64 {
          SparseCalls(t0, bs, last);
        }
      }
    } else {
      RunsOnceMore(t0, last, expected + 1);
    }
  }

  lemma RunsOnceMore(t0: Task, last: u64, m: nat)
    requires Fresh(t0) && t0.nextBlock <= last && last + t0.interval >= TWO_64
    requires t0.maxExecutions > 0 ==> m <= t0.maxExecutions
    ensures UpTo(Repeated(last, m), last) && Ticks(t0, Repeated(last, m)).executionCount == m
  {
    RunsEveryCall(t0, last, m);
    ExecutionsCounted(t0, Repeated(last, m));
  }

  lemma WrapsByOne(b: u64)
    requires 1 <= b
    ensures Wrap64(b + (TWO_64 - 1)) == b - 1
  {
  }

  predicate Ordered(bs: seq<u64>) {
    forall i, j :: 0 <= i <= j < |bs| ==> bs[i] <= bs[j]
  }

  // The largest interval that is accepted makes a task due, and paid, at every later call.
  lemma {:induction false} WidestInterval(t0: Task, bs: seq<u64>)
    requires Fresh(t0) && t0.interval == TWO_64 - 1 && t0.maxExecutions == 0
    requires Ordered(bs) && forall i :: 0 <= i < |bs| ==> 1 <= bs[i] && t0.nextBlock <= bs[i]
    ensures Executions(t0, bs) == bs
    ensures var t := Ticks(t0, bs); t.active && (bs != [] ==> t.nextBlock == bs[|bs| - 1] - 1)
  {
    if bs != [] {
      var before, b := bs[..|bs| - 1], bs[|bs| - 1];
      WidestInterval(t0, before);
      ExecutionsCounted(t0, before);
      ExecutionsStep(t0, before, b);
      TicksStep(t0, before, b);
      assert bs == before + [b];
      WrapsByOne(b);
    }
  }

  lemma ExpectedAtLeast(start: nat, interval: nat, cap: nat, b: nat, n: nat)
    requires 0 < interval && 0 < n && start + interval * (n - 1) <= b && (cap > 0 ==> n <= cap)
    ensures n <= Expected(start, interval, cap, b)
  {
    MulMonotone(interval, 0, n - 1);
    QuotientAtLeast(b - start, interval, n - 1);
  }

  // The executions xs, none after `last`, brought a fresh task t0 to t.
  predicate Reached(t0: Task, xs: seq<u64>, t: Task, last: u64) {
    && Spaced(xs, t0.interval) && t.executionCount == |xs|
    && t.interval == t0.interval && t.maxExecutions == t0.maxExecutions
    && (t0.maxExecutions > 0 ==> |xs| <= t0.maxExecutions)
    && t.nextBlock == (if xs == [] then t0.nextBlock else xs[|xs| - 1] + t0.interval)
    && (xs != [] ==> t0.nextBlock + t0.interval * (|xs| - 1) <= xs[|xs| - 1] <= last)
  }

  lemma ReachedStep(t0: Task, xs: seq<u64>, t: Task, last: u64, b: u64)
    requires Reached(t0, xs, t, last) && b <= last && last + t0.interval < TWO_64
    ensures Reached(t0, if Due(t, b) then xs + [b] else xs, Tick(t, b), last)
  {
    if xs != [] {
      Distribute(t0.interval, |xs| - 1, 1);
    }
    assert Wrap64(b + t0.interval) == b + t0.interval;
  }

  lemma {:induction false} SparseInvariant(t0: Task, bs: seq<u64>, last: u64)
    requires Fresh(t0) && last + t0.interval < TWO_64 && UpTo(bs, last)
    ensures Reached(t0, Executions(t0, bs), Ticks(t0, bs), last)
  {
    if bs != [] {
      var before, b := bs[..|bs| - 1], bs[|bs| - 1];
      SparseInvariant(t0, before, last);
      ReachedStep(t0, Executions(t0, before), Ticks(t0, before), last, b);
      if !Due(Ticks(t0, before), b) {
        assert Executions(t0, before) + [] == Executions(t0, before);
      }
    }
  }

  // ---------- The engine ----------

  datatype Engine = Engine(tasks: map<TaskId, Task>, order: seq<TaskId>, taskCount: u64, balances: map<Address, int>)

  predicate NoDuplicates<T(==)>(s: seq<T>) {
    forall i, j :: 0 <= i < j < |s| ==> s[i] != s[j]
  }

  // The name was given out as one of the first `count` ones.
  ghost predicate NamedWithin(id: TaskId, count: nat) {
    exists prefix: seq<byte>, n: nat :: 1 <= n <= count && id == prefix + [COLON] + Decimal(n)
  }

  // The order lists every task once.
  ghost predicate Valid(e: Engine) {
    && NoDuplicates(e.order)
    && (forall id :: id in e.order <==> id in e.tasks)
    && (forall id :: id in e.tasks ==> NamedWithin(id, e.taskCount))
  }

  function Scheduled(e: Engine, caller: Address, feed: seq<byte>, interval: u64, start: u64, cap: u64, reward: u64)
    : (r: Engine)
  {
    if interval < MIN_INTERVAL then e else
      var id := IdText(caller, feed, start, Wrap64(e.taskCount + 1));
      e.(tasks := e.tasks[id := Task(caller, feed, interval, start, 0, 0, cap, reward, true)],
         order := e.order + [id], taskCount := Wrap64(e.taskCount + 1))
  }

  function Cancelled(e: Engine, id: TaskId, caller: Address): (r: Engine) {
    if id in e.tasks && e.tasks[id].caller == caller
    then e.(tasks := e.tasks[id := e.tasks[id].(active := false)])
    else e
  }

  function Ticked(tasks: map<TaskId, Task>, b: u64): (r: map<TaskId, Task>) {
    map id | id in tasks :: Tick(tasks[id], b)
  }

  // The listed tasks that run at block b, in order.
  function DueTasks(order: seq<TaskId>, tasks: map<TaskId, Task>, b: u64): (ids: seq<TaskId>)
    requires forall id :: id in order ==> id in tasks
  {
    if order == [] then [] else
      var before, id := order[..|order| - 1], order[|order| - 1];
      DueTasks(before, tasks, b) + (if Due(tasks[id], b) then [id] else [])
  }

  function Rewarded(balances: map<Address, int>, t: Task): (r: map<Address, int>) {
    if t.reward > 0 then balances[t.caller := Get(balances, t.caller) + t.reward] else balances
  }

  function PaidOut(balances: map<Address, int>, ids: seq<TaskId>, tasks: map<TaskId, Task>): (r: map<Address, int>)
    requires forall id :: id in ids ==> id in tasks
  {
    if ids == [] then balances else
      Rewarded(PaidOut(balances, ids[..|ids| - 1], tasks), tasks[ids[|ids| - 1]])
  }

  lemma {:induction false} DueTasksListed(order: seq<TaskId>, tasks: map<TaskId, Task>, b: u64)
    requires forall id :: id in order ==> id in tasks
    ensures forall id :: id in DueTasks(order, tasks, b) <==> id in order && Due(tasks[id], b)
  {
    if order != [] {
      var before, id := order[..|order| - 1], order[|order| - 1];
      DueTasksListed(before, tasks, b);
      assert order == before + [id];
    }
  }

  function Executed(e: Engine, b: u64): (r: Engine)
    requires forall id :: id in e.order ==> id in e.tasks
  {
    DueTasksListed(e.order, e.tasks, b);
    e.(tasks := Ticked(e.tasks, b), balances := PaidOut(e.balances, DueTasks(e.order, e.tasks, b), e.tasks))
  }

  lemma FreshName(e: Engine, caller: Address, feed: seq<byte>, start: u64)
    requires Valid(e) && e.taskCount + 1 < TWO_64
    ensures IdText(caller, feed, start, e.taskCount + 1) !in e.tasks
    ensures NamedWithin(IdText(caller, feed, start, e.taskCount + 1), e.taskCount + 1)
  {
    var n := e.taskCount + 1;
    var own := caller + [COLON] + Hex(feed) + [COLON] + Decimal(start);
    var id := IdText(caller, feed, start, n);
    assert id == own + [COLON] + Decimal(n);
    if id in e.tasks {
      var prefix: seq<byte>, m: nat :| 1 <= m <= e.taskCount && id == prefix + [COLON] + Decimal(m);
      SignedInjective(m, n);
      SignedInjective(n, m);
      LastColon(prefix, Decimal(m), own, Decimal(n));
      assert false;
    }
  }

  // ---------- Runs ----------

  datatype Event =
    | Schedule(caller: Address, feed: seq<byte>, interval: u64, start: u64, cap: u64, reward: u64)
    | Cancel(id: TaskId, caller: Address)
    | Execute(block: u64)

  type State = e: Engine | Valid(e) ghost witness Engine(map[], [], 0, map[])

  // A task listing stays a duplicate-free listing of the task map.
  ghost function After(e: State, ev: Event): (r: State)
    requires e.taskCount + 1 < TWO_64
    ensures r.taskCount <= e.taskCount + 1
  {
    match ev
    case Schedule(caller, feed, interval, start, cap, reward) =>
      ScheduledIsValid(e, caller, feed, interval, start, cap, reward);
      Scheduled(e, caller, feed, interval, start, cap, reward)
    case Cancel(id, caller) => Cancelled(e, id, caller)
    case Execute(b) => Executed(e, b)
  }

  lemma ScheduledIsValid(e: State, caller: Address, feed: seq<byte>, interval: u64, start: u64, cap: u64, reward: u64)
    requires e.taskCount + 1 < TWO_64
    ensures Valid(Scheduled(e, caller, feed, interval, start, cap, reward))
  {
    FreshName(e, caller, feed, start);
  }

  ghost function Final(e: State, es: seq<Event>): (r: State)
    requires e.taskCount + |es| < TWO_64
    ensures r.taskCount <= e.taskCount + |es|
  {
    if es == [] then e else After(Final(e, es[..|es| - 1]), es[|es| - 1])
  }

  function Blocks(es: seq<Event>): (bs: seq<u64>) {
    if es == [] then [] else
      Blocks(es[..|es| - 1]) + (if es[|es| - 1].Execute? then [es[|es| - 1].block] else [])
  }

  lemma OneEvent(e: State, ev: Event, id: TaskId)
    requires e.taskCount + 1 < TWO_64 && id in e.tasks
    ensures id in After(e, ev).tasks
    ensures var t := e.tasks[id];
            After(e, ev).tasks[id]
            == match ev
               case Schedule(_, _, _, _, _, _) => t
               case Cancel(i, caller) => if i == id && caller == t.caller then t.(active := false) else t
               case Execute(b) => Tick(t, b)
  {
    if ev.Schedule? {
      FreshName(e, ev.caller, ev.feed, ev.start);
    }
  }

  // A task as the events leave it: blocks tick it, and its owner's cancellation stops it.
  function Seen(t0: Task, id: TaskId, es: seq<Event>): (t: Task) {
    if es == [] then t0 else
      var t := Seen(t0, id, es[..|es| - 1]);
      match es[|es| - 1]
      case Schedule(_, _, _, _, _, _) => t
      case Cancel(i, caller) => if i == id && caller == t.caller then t.(active := false) else t
      case Execute(b) => Tick(t, b)
  }

  // Over every run, a task is what its own blocks and cancellations make of it.
  lemma {:induction false} TaskSeesEvents(e: State, es: seq<Event>, id: TaskId)
    requires e.taskCount + |es| < TWO_64 && id in e.tasks
    ensures id in Final(e, es).tasks && Final(e, es).tasks[id] == Seen(e.tasks[id], id, es)
  {
    if es != [] {
      var before, ev := es[..|es| - 1], es[|es| - 1];
      TaskSeesEvents(e, before, id);
      OneEvent(Final(e, before), ev, id);
    }
  }

  // Without a cancellation by its owner, a task has seen nothing but the blocks.
  lemma {:induction false} SeenBlocks(t0: Task, id: TaskId, es: seq<Event>)
    requires Cancel(id, t0.caller) !in es
    ensures Seen(t0, id, es) == Ticks(t0, Blocks(es)) && Ticks(t0, Blocks(es)).caller == t0.caller
  {
    if es != [] {
      var before, ev := es[..|es| - 1], es[|es| - 1];
      assert ev in es && forall x :: x in before ==> x in es;
      SeenBlocks(t0, id, before);
      if ev.Execute? {
        TicksStep(t0, Blocks(before), ev.block);
      } else {
        assert Blocks(before) + [] == Blocks(before);
      }
    }
  }

  // Exact scheduling: in any run whose blocks are consecutive, a task that is not cancelled has
  // executed as often as its start, interval and cap say, exactly when it keeps pace.
  lemma ExactCount(e: State, es: seq<Event>, id: TaskId, first: nat, n: nat)
    requires e.taskCount + |es| < TWO_64 && id in e.tasks && Fresh(e.tasks[id])
    requires Cancel(id, e.tasks[id].caller) !in es
    requires 0 < n && first + n <= TWO_64 && Blocks(es) == Range(first, n)
    ensures id in Final(e, es).tasks
    ensures var t := e.tasks[id];
            (Final(e, es).tasks[id].executionCount
               == Expected(StartOf(t, first), t.interval, t.maxExecutions, first + n - 1)
             <==> KeepsPace(t, StartOf(t, first), first + n - 1))
  {
    TaskSeesEvents(e, es, id);
    SeenBlocks(e.tasks[id], id, es);
    EveryBlockCount(e.tasks[id], first, n);
  }

  lemma {:induction false} StoppedStays(t: Task, id: TaskId, es: seq<Event>)
    requires !t.active
    ensures Seen(t, id, es) == t
  {
    if es != [] {
      StoppedStays(t, id, es[..|es| - 1]);
    }
  }

  // A task that its owner has cancelled never runs again, whatever follows.
  lemma CancelledStops(e: State, id: TaskId, es: seq<Event>)
    requires e.taskCount + 1 + |es| < TWO_64 && id in e.tasks
    ensures var c := After(e, Cancel(id, e.tasks[id].caller));
            && c.taskCount + |es| < TWO_64 && id in Final(c, es).tasks
            && Final(c, es).tasks[id] == e.tasks[id].(active := false)
  {
    var c := After(e, Cancel(id, e.tasks[id].caller));
    TaskSeesEvents(c, es, id);
    StoppedStays(c.tasks[id], id, es);
  }

  // ---------- Accounting ----------

  // What one execution of the task pays to the account.
  function RewardTo(t: Task, who: Address): (n: nat) {
    if t.caller == who then t.reward else 0
  }

  function Earned(tasks: map<TaskId, Task>, who: Address): (m: map<TaskId, int>) {
    map id | id in tasks :: tasks[id].executionCount * RewardTo(tasks[id], who)
  }

  function Bonus(ids: seq<TaskId>, tasks: map<TaskId, Task>, b: u64, who: Address): (m: map<TaskId, int>) {
    map id | id in ids && id in tasks :: if Due(tasks[id], b) then RewardTo(tasks[id], who) else 0
  }

  lemma DueStep(before: seq<TaskId>, id: TaskId, tasks: map<TaskId, Task>, b: u64, balances: map<Address, int>)
    requires id in tasks && forall x :: x in before ==> x in tasks
    ensures DueTasks(before + [id], tasks, b) == DueTasks(before, tasks, b) + if Due(tasks[id], b) then [id] else []
    ensures forall x :: x in DueTasks(before, tasks, b) ==> x in tasks
    ensures forall x :: x in DueTasks(before + [id], tasks, b) ==> x in tasks
    ensures var paid := PaidOut(balances, DueTasks(before, tasks, b), tasks);
            PaidOut(balances, DueTasks(before + [id], tasks, b), tasks)
              == if Due(tasks[id], b) then Rewarded(paid, tasks[id]) else paid
  {
    DueTasksListed(before, tasks, b);
    var due := DueTasks(before, tasks, b);
    assert (before + [id])[..|before|] == before;
    assert (due + [id])[..|due|] == due;
    assert due + [] == due;
  }

  lemma RewardedTo(balances: map<Address, int>, t: Task, who: Address)
    ensures Get(Rewarded(balances, t), who) == Get(balances, who) + RewardTo(t, who)
  {
  }

  lemma BonusStep(before: seq<TaskId>, id: TaskId, tasks: map<TaskId, Task>, b: u64, who: Address)
    requires id in tasks && id !in before
    ensures Total(Bonus(before + [id], tasks, b, who))
         == Total(Bonus(before, tasks, b, who)) + if Due(tasks[id], b) then RewardTo(tasks[id], who) else 0
  {
    var bonus := if Due(tasks[id], b) then RewardTo(tasks[id], who) else 0;
    assert Bonus(before + [id], tasks, b, who) == Bonus(before, tasks, b, who)[id := bonus];
    TotalUpdate(Bonus(before, tasks, b, who), id, bonus);
  }

  lemma {:induction false} PaidOutTo(order: seq<TaskId>, tasks: map<TaskId, Task>, b: u64,
                                     balances: map<Address, int>, who: Address)
    requires NoDuplicates(order) && forall id :: id in order ==> id in tasks
    ensures forall id :: id in DueTasks(order, tasks, b) ==> id in tasks
    ensures Get(PaidOut(balances, DueTasks(order, tasks, b), tasks), who)
         == Get(balances, who) + Total(Bonus(order, tasks, b, who))
  {
    if order == [] {
      assert Bonus(order, tasks, b, who) == map[];
    } else {
      var before, id := order[..|order| - 1], order[|order| - 1];
      assert order == before + [id];
      PaidOutTo(before, tasks, b, balances, who);
      DueStep(before, id, tasks, b, balances);
      BonusStep(before, id, tasks, b, who);
      RewardedTo(PaidOut(balances, DueTasks(before, tasks, b), tasks), tasks[id], who);
    }
  }

  lemma EarnedStep(t: Task, b: u64, who: Address)
    ensures Tick(t, b).executionCount * RewardTo(Tick(t, b), who)
         == t.executionCount * RewardTo(t, who) + if Due(t, b) then RewardTo(t, who) else 0
  {
    Distribute(RewardTo(t, who), t.executionCount, 1);
  }

  lemma ExecuteAccounts(e: State, b: u64, who: Address)
    ensures Unexplained(Executed(e, b), who) == Unexplained(e, who)
  {
    var bonus := Bonus(e.order, e.tasks, b, who);
    var earned, earned' := Earned(e.tasks, who), Earned(Ticked(e.tasks, b), who);
    DueTasksListed(e.order, e.tasks, b);
    PaidOutTo(e.order, e.tasks, b, e.balances, who);
    forall id | id in e.tasks ensures earned'[id] == earned[id] + bonus[id] {
      EarnedStep(e.tasks[id], b, who);
    }
    TotalPlus(earned, bonus, earned');
  }

  // What an account holds beyond the rewards of its own tasks: constant over every run.
  ghost function Unexplained(e: Engine, who: Address): (n: int) {
    Get(e.balances, who) - Total(Earned(e.tasks, who))
  }

  lemma ScheduleAccounts(e: State, caller: Address, feed: seq<byte>, interval: u64, start: u64, cap: u64, reward: u64,
                         who: Address)
    requires e.taskCount + 1 < TWO_64
    ensures Unexplained(Scheduled(e, caller, feed, interval, start, cap, reward), who) == Unexplained(e, who)
  {
    if interval >= MIN_INTERVAL {
      var id := IdText(caller, feed, start, e.taskCount + 1);
      FreshName(e, caller, feed, start);
      TotalUpdate(Earned(e.tasks, who), id, 0);
      var tasks' := Scheduled(e, caller, feed, interval, start, cap, reward).tasks;
      assert Earned(tasks', who) == Earned(e.tasks, who)[id := 0];
    }
  }

  lemma CancelAccounts(e: State, id: TaskId, caller: Address, who: Address)
    ensures Unexplained(Cancelled(e, id, caller), who) == Unexplained(e, who)
  {
    assert Earned(Cancelled(e, id, caller).tasks, who) == Earned(e.tasks, who);
  }

  // Over every run, each account gains exactly the rewards of its own tasks' executions.
  lemma {:induction false} RunAccounts(e: State, es: seq<Event>, who: Address)
    requires e.taskCount + |es| < TWO_64
    ensures Unexplained(Final(e, es), who) == Unexplained(e, who)
  {
    if es != [] {
      var before, ev := es[..|es| - 1], es[|es| - 1];
      RunAccounts(e, before, who);
      match ev {
        case Schedule(caller, feed, interval, start, cap, reward) =>
          ScheduleAccounts(Final(e, before), caller, feed, interval, start, cap, reward, who);
        case Cancel(id, caller) => CancelAccounts(Final(e, before), id, caller, who);
        case Execute(b) => ExecuteAccounts(Final(e, before), b, who);
      }
    }
  }

  // ---------- From the call to the account ----------

  // An accepted call stores one new task, active, without an execution and with exactly the owner, feed,
  // interval, start, cap and reward it was given; intervals under a hundred blocks change nothing.
  lemma ScheduledIsStored(e: State, caller: Address, feed: seq<byte>, interval: u64, start: u64, cap: u64, reward: u64)
    requires e.taskCount + 1 < TWO_64
    ensures var r := Scheduled(e, caller, feed, interval, start, cap, reward);
            var id := caller + [58] + Hex(feed) + [58] + Decimal(start) + [58] + Decimal(e.taskCount + 1);
            if interval < 100 then r == e else
              && id !in e.tasks && r.tasks.Keys == e.tasks.Keys + {id} && r.order == e.order + [id]
              && (forall x :: x in e.tasks ==> r.tasks[x] == e.tasks[x])
              && r.balances == e.balances && r.taskCount == e.taskCount + 1
              && var t := r.tasks[id];
              && t.caller == caller && t.feed == feed && t.interval == interval && t.nextBlock == start
              && t.maxExecutions == cap && t.reward == reward
              && t.active && t.executionCount == 0 && t.lastExecuted == 0
  {
    FreshName(e, caller, feed, start);
  }

  lemma {:induction false} TicksKeep(t0: Task, bs: seq<u64>)
    ensures var t := Ticks(t0, bs);
            && t.caller == t0.caller && t.feed == t0.feed && t.interval == t0.interval
            && t.maxExecutions == t0.maxExecutions && t.reward == t0.reward
  {
    if bs != [] {
      TicksKeep(t0, bs[..|bs| - 1]);
    }
  }

  // No task but the named one is the account's.
  ghost predicate OnlyTask(e: Engine, who: Address, id: TaskId) {
    forall x :: x in e.tasks && e.tasks[x].caller == who ==> x == id
  }

  lemma OnlyTaskStep(e: State, ev: Event, who: Address, id: TaskId)
    requires e.taskCount + 1 < TWO_64 && OnlyTask(e, who, id) && (ev.Schedule? ==> ev.caller != who)
    ensures OnlyTask(After(e, ev), who, id)
  {
  }

  lemma {:induction false} OnlyTaskStays(e: State, es: seq<Event>, who: Address, id: TaskId)
    requires e.taskCount + |es| < TWO_64 && OnlyTask(e, who, id)
    requires forall ev :: ev in es && ev.Schedule? ==> ev.caller != who
    ensures OnlyTask(Final(e, es), who, id)
  {
    if es != [] {
      var before, ev := es[..|es| - 1], es[|es| - 1];
      assert ev in es && forall x :: x in before ==> x in es;
      OnlyTaskStays(e, before, who, id);
      OnlyTaskStep(Final(e, before), ev, who, id);
    }
  }

  lemma OneEntry(m: map<TaskId, int>, id: TaskId)
    requires id in m && forall x :: x in m && x != id ==> m[x] == 0
    ensures Total(m) == m[id]
  {
    TotalWithout(m, id);
    TotalNonNegative(m - {id});
    TotalAtMost(1, m - {id}, 0, m - {id});
  }

  lemma OnlyTaskEarns(e: Engine, who: Address, id: TaskId)
    requires OnlyTask(e, who, id) && id in e.tasks && e.tasks[id].caller == who
    ensures Total(Earned(e.tasks, who)) == e.tasks[id].executionCount * e.tasks[id].reward
  {
    forall x | x in e.tasks && x != id ensures Earned(e.tasks, who)[x] == 0 {
      assert e.tasks[x].executionCount * 0 == 0;
    }
    OneEntry(Earned(e.tasks, who), id);
  }

  // The task of an account that has no other one accounts for all that the account gains.
  lemma OnlyTaskPays(e: State, es: seq<Event>, who: Address, id: TaskId)
    requires e.taskCount + |es| < TWO_64 && id in e.tasks && e.tasks[id].caller == who && OnlyTask(e, who, id)
    requires e.tasks[id].executionCount == 0 && Cancel(id, who) !in es
    requires forall ev :: ev in es && ev.Schedule? ==> ev.caller != who
    ensures id in Final(e, es).tasks
    ensures Get(Final(e, es).balances, who)
         == Get(e.balances, who) + Final(e, es).tasks[id].executionCount * e.tasks[id].reward
  {
    TaskSeesEvents(e, es, id);
    SeenBlocks(e.tasks[id], id, es);
    TicksKeep(e.tasks[id], Blocks(es));
    OnlyTaskStays(e, es, who, id);
    RunAccounts(e, es, who);
    OnlyTaskEarns(e, who, id);
    OnlyTaskEarns(Final(e, es), who, id);
  }

  lemma CancelFactor(n: int, x: int, y: int)
    requires n != 0 && x * n == y * n
    ensures x == y
  {
    assert (x - y) * n == 0;
  }

  lemma SameGain(before: int, after: int, count: int, expected: int, reward: int)
    requires after == before + count * reward
    ensures after == before + expected * reward <==> reward == 0 || count == expected
  {
    if reward != 0 && after == before + expected * reward {
      CancelFactor(reward, count, expected);
    }
  }

  lemma OnlyTaskPaysExactly(e: State, es: seq<Event>, who: Address, id: TaskId, first: nat, last: nat)
    requires e.taskCount + |es| < TWO_64 && id in e.tasks && e.tasks[id].caller == who && OnlyTask(e, who, id)
    requires Fresh(e.tasks[id]) && Cancel(id, who) !in es
    requires forall ev :: ev in es && ev.Schedule? ==> ev.caller != who
    requires first <= last < TWO_64 && Blocks(es) == Range(first, last - first + 1)
    ensures var t := e.tasks[id];
            var expected := Expected(StartOf(t, first), t.interval, t.maxExecutions, last);
            (Get(Final(e, es).balances, who) == Get(e.balances, who) + expected * t.reward
             <==> t.reward == 0 || KeepsPace(t, StartOf(t, first), last))
  {
    var t := e.tasks[id];
    OnlyTaskPays(e, es, who, id);
    ExactCount(e, es, id, first, last - first + 1);
    SameGain(Get(e.balances, who), Get(Final(e, es).balances, who), Final(e, es).tasks[id].executionCount,
             Expected(StartOf(t, first), t.interval, t.maxExecutions, last), t.reward);
  }

  // The engine after a caller without tasks has scheduled one.
  lemma FirstTask(e: State, caller: Address, feed: seq<byte>, interval: u64, start: u64, cap: u64, reward: u64,
                  id: TaskId)
    requires e.taskCount + 1 < TWO_64 && 100 <= interval && id == IdText(caller, feed, start, e.taskCount + 1)
    requires forall x :: x in e.tasks ==> e.tasks[x].caller != caller
    ensures var began := After(e, Schedule(caller, feed, interval, start, cap, reward));
            && began.taskCount == e.taskCount + 1 && began.balances == e.balances && OnlyTask(began, caller, id)
            && id in began.tasks && began.tasks[id] == Task(caller, feed, interval, start, 0, 0, cap, reward, true)
  {
    ScheduledIsStored(e, caller, feed, interval, start, cap, reward);
  }

  // From the call to the money: the caller schedules its only task and does not cancel it, and from
  // block `first` on every block is executed, up to block `last`. Then the caller has gained its reward
  // once for the start and once for each interval since, up to the cap, exactly when the reward is zero
  // or the task keeps pace.
  lemma ScheduleEarns(e: State, caller: Address, feed: seq<byte>, interval: u64, start: u64, cap: u64, reward: u64,
                      es: seq<Event>, first: nat, last: nat)
    requires e.taskCount + 1 + |es| < TWO_64 && 100 <= interval
    requires forall x :: x in e.tasks ==> e.tasks[x].caller != caller
    requires forall ev :: ev in es && ev.Schedule? ==> ev.caller != caller
    requires forall ev :: ev in es && ev.Cancel? ==> ev.caller != caller
    requires first <= last < TWO_64 && Blocks(es) == Range(first, last - first + 1)
    ensures After(e, Schedule(caller, feed, interval, start, cap, reward)).taskCount == e.taskCount + 1
    ensures var from := if start < first then first else start;
            var r := Final(After(e, Schedule(caller, feed, interval, start, cap, reward)), es);
            (Get(r.balances, caller) == Get(e.balances, caller) + Expected(from, interval, cap, last) * reward
             <==> reward == 0 || KeepsPace(Task(caller, feed, interval, start, 0, 0, cap, reward, true), from, last))
  {
    var began := After(e, Schedule(caller, feed, interval, start, cap, reward));
    var id := IdText(caller, feed, start, e.taskCount + 1);
    FirstTask(e, caller, feed, interval, start, cap, reward, id);
    OnlyTaskPaysExactly(began, es, caller, id, first, last);
  }

  // ---------- The engine as an object ----------

  datatype Failure = IntervalTooShort | TaskNotFound | NotTheCaller

  class TimeExecution {
    var tasks: map<TaskId, Task>
    var taskOrder: seq<TaskId>
    var taskCount: u64
    var balances: map<Address, int>

    ghost function Current(): (e: Engine)
      reads this
    {
      Engine(tasks, taskOrder, taskCount, balances)
    }

    constructor (taskCount: u64, balances: map<Address, int>)
      ensures Current() == Engine(map[], [], taskCount, balances) && Valid(Current())
    {
      tasks, taskOrder, this.taskCount, this.balances := map[], [], taskCount, balances;
    }

    method ScheduleTask(caller: Address, feed: seq<byte>, interval: u64, start: u64, cap: u64, reward: u64)
      returns (r: Result<(TaskId, u64), Failure>)
      requires Valid(Current())
      modifies this
      ensures Current() == Scheduled(old(Current()), caller, feed, interval, start, cap, reward)
      ensures if interval < MIN_INTERVAL then r == Err(IntervalTooShort)
              else r.Ok? && r.value.0 in tasks && r.value.1 == start
      ensures old(taskCount) + 1 < TWO_64 ==> Valid(Current()) && (r.Ok? ==> r.value.0 !in old(tasks))
    {
      if interval < MIN_INTERVAL {
        return Err(IntervalTooShort);
      }
      ghost var r' := Scheduled(Current(), caller, feed, interval, start, cap, reward);
      if taskCount + 1 < TWO_64 {
        ScheduledIsValid(Current(), caller, feed, interval, start, cap, reward);
        FreshName(Current(), caller, feed, start);
      }
      var id := IdText(caller, feed, start, Wrap64(taskCount + 1));
      tasks := tasks[id := Task(caller, feed, interval, start, 0, 0, cap, reward, true)];
      taskOrder := taskOrder + [id];
      taskCount := Wrap64(taskCount + 1);
      assert Current() == r';
      return Ok((id, start));
    }

    method CancelTask(id: TaskId, caller: Address) returns (r: Result<(), Failure>)
      requires Valid(Current())
      modifies this
      ensures Valid(Current()) && Current() == Cancelled(old(Current()), id, caller)
      ensures r == Ok(()) <==> id in old(tasks) && old(tasks)[id].caller == caller
      ensures r == Err(TaskNotFound) <==> id !in old(tasks)
    {
      if id !in tasks {
        return Err(TaskNotFound);
      }
      if tasks[id].caller != caller {
        return Err(NotTheCaller);
      }
      tasks := tasks[id := tasks[id].(active := false)];
      return Ok(());
    }

    // Runs one task if it is due.
    method RunTask(id: TaskId, b: u64) returns (ran: bool)
      requires id in tasks
      modifies this`tasks, this`balances
      ensures ran == Due(old(tasks)[id], b)
      ensures tasks == old(tasks)[id := Tick(old(tasks)[id], b)]
      ensures balances == if ran then Rewarded(old(balances), old(tasks)[id]) else old(balances)
    {
      var task := tasks[id];
      assert tasks[id := task] == tasks;
      if !task.active {
        return false;
      }
      if task.maxExecutions > 0 && task.executionCount >= task.maxExecutions {
        tasks := tasks[id := task.(active := false)];
        return false;
      }
      if b < task.nextBlock {
        return false;
      }
      tasks := tasks[id := task.(executionCount := task.executionCount + 1, lastExecuted := b,
                                 nextBlock := Wrap64(b + task.interval))];
      if task.reward > 0 {
        balances := balances[task.caller := Get(balances, task.caller) + task.reward];
      }
      return true;
    }

    method ExecuteDueTasks(b: u64) returns (executed: seq<TaskId>)
      requires Valid(Current())
      modifies this
      ensures Valid(Current()) && Current() == Executed(old(Current()), b)
      ensures executed == DueTasks(old(taskOrder), old(tasks), b)
    {
      executed := [];
      var order := taskOrder;
      ghost var before, paid := tasks, balances;
      for i := 0 to |order|
        invariant Progress(before, paid, order[..i], b, tasks, executed, balances)
        modifies this`tasks, this`balances
      {
        NextListed(order, i, before);
        ProgressStep(before, paid, order[..i], order[i], b, tasks, executed, balances);
        var ran := RunTask(order[i], b);
        if ran {
          executed := executed + [order[i]];
        }
      }
      assert order[..|order|] == order;
      AllListed(before, order, b);
    }
  }

  lemma AllListed(tasks: map<TaskId, Task>, order: seq<TaskId>, b: u64)
    requires forall id :: id in tasks ==> id in order
    ensures TickedListed(tasks, order, b) == Ticked(tasks, b)
  {
  }

  lemma NextListed(order: seq<TaskId>, i: nat, tasks: map<TaskId, Task>)
    requires i < |order| && NoDuplicates(order) && forall id :: id in order <==> id in tasks
    ensures order[i] in tasks && order[i] !in order[..i] && order[..i + 1] == order[..i] + [order[i]]
  {
  }

  // The listed tasks have been run at block b.
  ghost predicate Progress(before: map<TaskId, Task>, paid: map<Address, int>, ids: seq<TaskId>, b: u64,
                           tasks: map<TaskId, Task>, executed: seq<TaskId>, balances: map<Address, int>)
  {
    && (forall id :: id in ids ==> id in before)
    && (forall id :: id in executed ==> id in before)
    && tasks == TickedListed(before, ids, b)
    && executed == DueTasks(ids, before, b)
    && balances == PaidOut(paid, executed, before)
  }

  lemma ProgressStep(before: map<TaskId, Task>, paid: map<Address, int>, ids: seq<TaskId>, id: TaskId, b: u64,
                     tasks: map<TaskId, Task>, executed: seq<TaskId>, balances: map<Address, int>)
    requires Progress(before, paid, ids, b, tasks, executed, balances) && id in before && id !in ids
    ensures id in tasks
    ensures var t := tasks[id];
            if Due(t, b)
            then Progress(before, paid, ids + [id], b, tasks[id := Tick(t, b)], executed + [id], Rewarded(balances, t))
            else Progress(before, paid, ids + [id], b, tasks[id := Tick(t, b)], executed, balances)
  {
    DueStep(ids, id, before, b, paid);
    TickOneMore(before, ids, id, b);
  }

  function TickedListed(tasks: map<TaskId, Task>, ids: seq<TaskId>, b: u64): (r: map<TaskId, Task>) {
    map id | id in tasks :: if id in ids then Tick(tasks[id], b) else tasks[id]
  }

  lemma TickOneMore(tasks: map<TaskId, Task>, ids: seq<TaskId>, id: TaskId, b: u64)
    requires id in tasks && id !in ids
    ensures TickedListed(tasks, ids, b)[id] == tasks[id]
    ensures TickedListed(tasks, ids + [id], b) == TickedListed(tasks, ids, b)[id := Tick(tasks[id], b)]
  {
  }
}
