/**
 The scheduler's theorems, over every run from any number of Rust threads and
 for every pool size.
 */
module SchedulerRuns {
  import opened Wrappers
  import opened Scheduler
  import opened SchedulerLaws
  import opened SchedulerPeaks
  import opened SchedulerJams

  ghost predicate IsRun(n: nat, run: seq<State>) {
    && |run| > 0
    && forall i | 0 <= i < |run| - 1 :: Step(n, run[i], run[i + 1])
  }

  ghost predicate Stopped(n: nat, s: State) {
    forall s' :: !Step(n, s, s')
  }

  function Last(run: seq<State>): State
    requires |run| > 0
  {
    run[|run| - 1]
  }

  predicate Valid(n: nat, s: State) {
    Workers(s) <= n && forall i | 0 <= i < |s.threads| :: ValidThread(s.threads[i])
  }

  /** Each thread is to return what its closure means, run on its own. */
  predicate Means(programs: seq<Closure>, s: State) {
    |s.threads| == |programs| && forall i | 0 <= i < |programs| :: ThreadMeaning(s.threads[i]) == Answer(programs[i])
  }

  lemma StartValid(n: nat, programs: seq<Closure>)
    ensures Valid(n, Start(programs)) && Means(programs, Start(programs))
  {
    AtHoldsNone(Start(programs));
  }

  /** A thread that isn't in a call holds no worker. */
  lemma AtHoldsNone(s: State)
    ensures (forall i | 0 <= i < |s.threads| :: s.threads[i].At?) ==> Workers(s) == s.exiting && ParkedWorkers(s) == 0
  {
    hide ThreadLoad, Total;
    if forall i | 0 <= i < |s.threads| :: s.threads[i].At? {
      forall i | 0 <= i < |s.threads| ensures ThreadLoads(s.threads)[i].Workers() == 0 {
        AtLoad(s.threads[i].closure);
      }
      NoneHeld(ThreadLoads(s.threads));
    }
  }

  lemma StepKeeps(n: nat, programs: seq<Closure>, s: State, s': State)
    requires Valid(n, s) && Means(programs, s) && Step(n, s, s')
    ensures Valid(n, s') && Means(programs, s')
    ensures Work(s') < Work(s)
    ensures ParkedWorkers(s) == n ==> ParkedWorkers(s') == n
  {
    hide ThreadStep, ThreadLoad, ValidThread, ThreadMeaning, Total, Answer;
    if !(s.exiting > 0 && s' == s.(exiting := s.exiting - 1)) {
      var free, exits := Workers(s) < n, s'.exiting - s.exiting;
      var i :| 0 <= i < |s.threads| && s'.threads == s.threads[i := s'.threads[i]]
               && ThreadStep(free, s.threads[i], s'.threads[i], exits);
      ThreadStepKeepsMeaning(free, s.threads[i], s'.threads[i], exits);
      ThreadStepLoad(free, s.threads[i], s'.threads[i], exits);
      TotalSteps(free, ThreadLoads(s.threads), i, ThreadLoad(s'.threads[i]), exits);
      assert ThreadLoads(s'.threads) == ThreadLoads(s.threads)[i := ThreadLoad(s'.threads[i])];
    }
  }

  /** Safety and termination. In every interleaving the pool is never over its
      size, each thread is to return its own closure's answer, and a run is no
      longer than the work its threads start with. */
  lemma {:induction false} EveryRun(n: nat, programs: seq<Closure>, run: seq<State>)
    requires IsRun(n, run) && run[0] == Start(programs)
    ensures Valid(n, Last(run)) && Means(programs, Last(run))
    ensures |run| - 1 + Work(Last(run)) <= Work(Start(programs))
    decreases |run|
  {
    if |run| == 1 {
      StartValid(n, programs);
    } else {
      var before := run[..|run| - 1];
      EveryRun(n, programs, before);
      assert Step(n, run[|run| - 2], run[|run| - 1]);
      StepKeeps(n, programs, Last(before), Last(run));
    }
  }

  /** While a worker isn't parked and something is unfinished, something moves. */
  lemma Progress(n: nat, s: State) returns (s': State)
    requires Valid(n, s) && ParkedWorkers(s) < n
    requires !(AllReturned(s) && s.exiting == 0)
    ensures Step(n, s, s')
  {
    if s.exiting > 0 {
      s' := s.(exiting := s.exiting - 1);
    } else {
      var free := Workers(s) < n;
      var i: nat;
      if free {
        i :| i < |s.threads| && !Returned(s.threads[i]);
      } else {
        i := SomeBusy(ThreadLoads(s.threads));
      }
      var t', exits := ThreadProgress(free, s.threads[i]);
      ThreadStepLoad(free, s.threads[i], t', exits);
      s' := State(s.threads[i := t'], s.exiting + exits);
      assert s'.threads[i] == t' && s'.threads == s.threads[i := s'.threads[i]];
    }
  }

  lemma NotStopped(n: nat, s: State)
    requires Valid(n, s) && ParkedWorkers(s) < n
    requires !(AllReturned(s) && s.exiting == 0)
    ensures !Stopped(n, s)
  {
    var s' := Progress(n, s);
  }

  /** The exact jam condition. Where a run stops, either everything has
      finished and each thread has its closure's answer, or every one of the
      pool's workers is parked in `blocking`. */
  lemma StopsFinishedOrJammed(n: nat, programs: seq<Closure>, run: seq<State>)
    requires n >= 1
    requires IsRun(n, run) && run[0] == Start(programs) && Stopped(n, Last(run))
    ensures AllReturned(Last(run)) <==> ParkedWorkers(Last(run)) < n
    ensures AllReturned(Last(run)) ==>
              && Last(run).exiting == 0
              && |Last(run).threads| == |programs|
              && forall i | 0 <= i < |programs| :: Last(run).threads[i] == At(Return(Answer(programs[i])))
  {
    var s := Last(run);
    EveryRun(n, programs, run);
    if ParkedWorkers(s) < n && !(AllReturned(s) && s.exiting == 0) {
      NotStopped(n, s);
    }
    AtHoldsNone(s);
  }

  /** Once every worker is parked, every worker stays parked, and no run ends
      with every thread returned. */
  lemma {:induction false} JamIsForever(n: nat, programs: seq<Closure>, run: seq<State>)
    requires n >= 1
    requires IsRun(n, run) && Valid(n, run[0]) && Means(programs, run[0]) && ParkedWorkers(run[0]) == n
    ensures Valid(n, Last(run)) && Means(programs, Last(run))
    ensures ParkedWorkers(Last(run)) == n && !AllReturned(Last(run))
    decreases |run|
  {
    if |run| > 1 {
      var before := run[..|run| - 1];
      JamIsForever(n, programs, before);
      assert Step(n, run[|run| - 2], run[|run| - 1]);
      StepKeeps(n, programs, Last(before), Last(run));
    }
    AtHoldsNone(Last(run));
  }

  /** Every run can go on until nothing moves, so there is always such an end. */
  lemma {:induction false} RunToStop(n: nat, programs: seq<Closure>, run: seq<State>) returns (end: seq<State>)
    requires IsRun(n, run) && run[0] == Start(programs)
    ensures IsRun(n, end) && run <= end && Stopped(n, Last(end))
    decreases Work(Last(run))
  {
    EveryRun(n, programs, run);
    if Stopped(n, Last(run)) {
      end := run;
    } else {
      var s' :| Step(n, Last(run), s');
      StepKeeps(n, programs, Last(run), s');
      end := RunToStop(n, programs, run + [s']);
    }
  }

  /******* How many workers can be parked *******/

  /** No run ever has more workers parked than its programs' peak. */
  lemma {:induction false} ParkedAtMostPeak(n: nat, programs: seq<Closure>, run: seq<State>)
    requires IsRun(n, run) && run[0] == Start(programs)
    ensures Sum(ThreadPeaks(Last(run).threads)) <= PeakOf(programs)
    ensures ParkedWorkers(Last(run)) <= PeakOf(programs)
    decreases |run|
  {
    hide Sum, ThreadPeak, ThreadLoad, Total, ThreadStep, ClosurePeak;
    var s := Last(run);
    if |run| == 1 {
      forall i | 0 <= i < |programs| ensures ThreadPeaks(s.threads)[i] == ClosurePeaks(programs)[i] {
        AtPeak(programs[i]);
      }
      assert ThreadPeaks(s.threads) == ClosurePeaks(programs);
    } else {
      var before := run[..|run| - 1];
      ParkedAtMostPeak(n, programs, before);
      EveryRun(n, programs, before);
      assert Step(n, run[|run| - 2], run[|run| - 1]);
      StepPeakFalls(n, Last(before), s);
    }
    forall i | 0 <= i < |s.threads| ensures ThreadLoads(s.threads)[i].parked <= ThreadPeaks(s.threads)[i] {
      ThreadParkedAtMostPeak(s.threads[i]);
    }
    ParkedAtMostSum(ThreadLoads(s.threads), ThreadPeaks(s.threads));
  }

  lemma StepPeakFalls(n: nat, s: State, s': State)
    requires Valid(n, s) && Step(n, s, s')
    ensures Sum(ThreadPeaks(s'.threads)) <= Sum(ThreadPeaks(s.threads))
  {
    hide Sum, ThreadPeak, ThreadLoad, Total, ThreadStep, ValidThread;
    if s'.threads != s.threads {
      var i :| 0 <= i < |s.threads| && s'.threads == s.threads[i := s'.threads[i]]
               && ThreadStep(Workers(s) < n, s.threads[i], s'.threads[i], s'.exiting - s.exiting);
      ThreadPeakFalls(Workers(s) < n, s.threads[i], s'.threads[i], s'.exiting - s.exiting);
      SumAtMost(ThreadPeaks(s'.threads), ThreadPeaks(s.threads));
    }
  }

  /** What one thread comes to, a run comes to. */
  lemma {:induction false} RunThread(n: nat, run: seq<State>, i: nat, k: nat, m: nat, t': Thread)
    returns (end: seq<State>)
    requires IsRun(n, run) && i < |Last(run).threads| && ThreadGoes(k, m, Last(run).threads[i], t')
    requires Workers(Last(run)) - ThreadLoad(Last(run).threads[i]).Workers() + m == n
    ensures IsRun(n, end) && run <= end && Last(end) == Last(run).(threads := Last(run).threads[i := t'])
    decreases k
  {
    hide ThreadLoad, Total, ThreadStep;
    var s := Last(run);
    if k == 0 {
      assert s.threads[i := t'] == s.threads;
      end := run;
    } else {
      var u :| ThreadMoves(m, s.threads[i], u) && ThreadGoes(k - 1, m, u, t');
      var s' := s.(threads := s.threads[i := u]);
      assert s'.threads == s.threads[i := s'.threads[i]];
      TotalUpdate(ThreadLoads(s.threads), i, ThreadLoad(u));
      assert ThreadLoads(s'.threads) == ThreadLoads(s.threads)[i := ThreadLoad(u)];
      assert s'.threads[i := t'] == s.threads[i := t'];
      end := RunThread(n, run + [s'], i, k - 1, m, t');
    }
  }

  /** One thread after another parks as many as it can and are still wanted. */
  lemma {:induction false} ParkThreads(n: nat, run: seq<State>, programs: seq<Closure>, k: nat, q: nat)
    returns (end: seq<State>)
    requires IsRun(n, run) && |Last(run).threads| == |programs| && Last(run).exiting == 0
    requires k <= |programs| && forall i | k <= i < |programs| :: Last(run).threads[i] == At(programs[i])
    requires var load := Total(ThreadLoads(Last(run).threads));
             load.busy == 0 && load.parked <= q <= n && q <= load.parked + Sum(ClosurePeaks(programs)[k..])
    ensures IsRun(n, end) && run <= end && ParkedWorkers(Last(end)) == q
    decreases |programs| - k
  {
    hide ThreadLoad, Total, ThreadStep, ClosurePeak, ThreadReaches, ThreadGoes, Step;
    var s := Last(run);
    var p := Total(ThreadLoads(s.threads)).parked;
    if p == q {
      end := run;
    } else {
      var peaks := ClosurePeaks(programs)[k..];
      assert peaks[0] == ClosurePeak(programs[k]) && peaks[1..] == ClosurePeaks(programs)[k + 1..];
      var wanted := if peaks[0] < q - p then peaks[0] else q - p;
      if wanted == 0 {
        end := ParkThreads(n, run, programs, k + 1, q);
      } else {
        var more := ParkThread(n, run, k, wanted);
        end := ParkThreads(n, more, programs, k + 1, q);
      }
    }
  }

  lemma ParkThread(n: nat, run: seq<State>, i: nat, q: nat) returns (end: seq<State>)
    requires IsRun(n, run) && i < |Last(run).threads| && Last(run).threads[i].At? && Last(run).exiting == 0
    requires 1 <= q <= ClosurePeak(Last(run).threads[i].closure)
    requires var load := Total(ThreadLoads(Last(run).threads)); load.busy == 0 && load.parked + q <= n
    ensures IsRun(n, end) && run <= end && Last(end).exiting == 0
    ensures |Last(end).threads| == |Last(run).threads|
    ensures forall k | 0 <= k < |Last(run).threads| && k != i :: Last(end).threads[k] == Last(run).threads[k]
    ensures Parked(Total(ThreadLoads(Last(end).threads)), Total(ThreadLoads(Last(run).threads)).parked + q)
  {
    hide ThreadLoad, Total, ThreadStep, ClosurePeak, ThreadGoes, Step;
    var s := Last(run);
    var m := n - Total(ThreadLoads(s.threads)).parked;
    var t := ParkClosure(s.threads[i].closure, q, m);
    var k: nat :| ThreadGoes(k, m, s.threads[i], t);
    AtLoad(s.threads[i].closure);
    end := RunThread(n, run, i, k, m, t);
    TotalUpdate(ThreadLoads(s.threads), i, ThreadLoad(t));
    assert ThreadLoads(Last(end).threads) == ThreadLoads(s.threads)[i := ThreadLoad(t)];
  }

  ghost predicate CanPark(n: nat, programs: seq<Closure>, q: nat) {
    exists run :: IsRun(n, run) && run[0] == Start(programs) && ParkedWorkers(Last(run)) == q
  }

  /** Some run has `q` workers parked exactly where the programs' peak is at
      least that. */
  lemma ParksExactly(n: nat, programs: seq<Closure>, q: nat)
    requires q <= n
    ensures CanPark(n, programs, q) <==> q <= PeakOf(programs)
  {
    hide ThreadLoad, Total, Step, Sum, ClosurePeak;
    if CanPark(n, programs, q) {
      var run :| IsRun(n, run) && run[0] == Start(programs) && ParkedWorkers(Last(run)) == q;
      ParkedAtMostPeak(n, programs, run);
    }
    if q <= PeakOf(programs) {
      var end := ParkSome(n, programs, q);
    }
  }

  lemma ParkSome(n: nat, programs: seq<Closure>, q: nat) returns (end: seq<State>)
    requires q <= n && q <= PeakOf(programs)
    ensures IsRun(n, end) && end[0] == Start(programs) && ParkedWorkers(Last(end)) == q
  {
    AtHoldsNone(Start(programs));
    assert IsRun(n, [Start(programs)]);
    hide ThreadLoad, Total, Step, Sum, ClosurePeak;
    assert ClosurePeaks(programs)[0..] == ClosurePeaks(programs);
    end := ParkThreads(n, [Start(programs)], programs, 0, q);
  }

  /******* When every schedule finishes *******/

  /** Everything has finished, and each thread has its closure's own answer. */
  predicate Finished(programs: seq<Closure>, s: State) {
    && s.exiting == 0 && |s.threads| == |programs|
    && forall i | 0 <= i < |programs| :: s.threads[i] == At(Return(Answer(programs[i])))
  }

  /** However its steps are scheduled, no run gets stuck. */
  ghost predicate Finishes(n: nat, programs: seq<Closure>) {
    forall run | IsRun(n, run) && run[0] == Start(programs) && Stopped(n, Last(run)) :: Finished(programs, Last(run))
  }

  /** The exact condition, found before anything runs: every schedule finishes
      where the programs' peak is below the pool's size, and otherwise some
      schedule jams. */
  lemma FinishesExactly(n: nat, programs: seq<Closure>)
    requires n >= 1
    ensures Finishes(n, programs) <==> PeakOf(programs) < n
    ensures PeakOf(programs) < n ==>
              forall run, i | IsRun(n, run) && run[0] == Start(programs) && Stopped(n, Last(run)) && 0 <= i < |programs| ::
                i < |Last(run).threads| && Last(run).threads[i] == At(Return(Answer(programs[i])))
  {
    hide ThreadLoad, Total, Step, Sum, ClosurePeak, Stopped;
    if PeakOf(programs) < n {
      forall run | IsRun(n, run) && run[0] == Start(programs) && Stopped(n, Last(run))
        ensures Finished(programs, Last(run))
      {
        ParkedAtMostPeak(n, programs, run);
        StopsFinishedOrJammed(n, programs, run);
      }
    } else {
      var end := JamAt(n, programs);
      assert !AllReturned(Last(end));
    }
  }

  /** A run that stops with every worker parked. */
  lemma JamAt(n: nat, programs: seq<Closure>) returns (end: seq<State>)
    requires 1 <= n <= PeakOf(programs)
    ensures IsRun(n, end) && end[0] == Start(programs) && Stopped(n, Last(end))
    ensures ParkedWorkers(Last(end)) == n && !AllReturned(Last(end))
  {
    hide ThreadLoad, Total, Step, Sum, ClosurePeak, Stopped, PeakOf;
    var run := ParkSome(n, programs, n);
    end := RunToStop(n, programs, run);
    EveryRun(n, programs, run);
    var rest := end[|run| - 1..];
    forall i | 0 <= i < |rest| - 1 ensures Step(n, rest[i], rest[i + 1]) {
      assert Step(n, end[i + |run| - 1], end[i + |run| - 1 + 1]);
    }
    JamIsForever(n, programs, rest);
  }

  /** A thread that hands Swift a configuration closure that calls `blocking`. */
  const BODY := Done(Success(0))
  const CALLS_BACK := Blocking(BODY, Return(true), Return(false))
  const CREATES := Blocking(OnPool(CALLS_BACK, BODY, BODY), Return(true), Return(false))

  lemma {:induction false} CreatesPeak(n: nat)
    ensures PeakOf(seq(n, _ => CREATES)) == n && CallersOf(seq(n, _ => CREATES)) == n
  {
    assert ClosurePeak(CALLS_BACK) == 0 && ClosureCallers(CALLS_BACK) == 0;
    assert Peak(OnPool(CALLS_BACK, BODY, BODY)) == 1 && Callers(OnPool(CALLS_BACK, BODY, BODY)) == 1;
    assert ClosurePeak(CREATES) == 1 && ClosureCallers(CREATES) == 1;
    SumOnes(ClosurePeaks(seq(n, _ => CREATES)));
    SumOnes(ClosureCallersEach(seq(n, _ => CREATES)));
  }

  lemma {:induction false} SumOnes(ns: seq<nat>)
    requires forall i | 0 <= i < |ns| :: ns[i] == 1
    ensures Sum(ns) == |ns|
  {
    if ns != [] {
      SumOnes(ns[1..]);
    }
  }

  /** The documented hazard: as many configuration closures that call `blocking`
      as the pool has workers can park any number of them, and all of them. */
  lemma PoolCanJam(n: nat, parked: nat) returns (run: seq<State>)
    requires parked <= n
    ensures IsRun(n, run) && run[0] == Start(seq(n, _ => CREATES))
    ensures ParkedWorkers(Last(run)) == parked
  {
    CreatesPeak(n);
    run := ParkSome(n, seq(n, _ => CREATES), parked);
  }

  /** Counting closures is enough: programs with at most `k` closures left on the
      pool that call back, whatever else they do, finish on every pool with more
      workers than that, and on no smaller one. */
  lemma CallersFinishExactly(n: nat, k: nat)
    requires n >= 1
    ensures (forall programs | CallersOf(programs) <= k :: Finishes(n, programs)) <==> k < n
  {
    hide Finishes, PeakOf, CallersOf;
    if k < n {
      forall programs | CallersOf(programs) <= k ensures Finishes(n, programs) {
        PeakOfAtMostCallers(programs);
        FinishesExactly(n, programs);
      }
    } else {
      CreatesPeak(n);
      FinishesExactly(n, seq(n, _ => CREATES));
    }
  }

  /** Where every closure that calls back runs through `offPool`, no worker is
      ever parked on a semaphore. */
  lemma OffPoolNeverParks(n: nat, programs: seq<Closure>, run: seq<State>)
    requires forall i | 0 <= i < |programs| :: CallsKeepOffPool(programs[i])
    requires IsRun(n, run) && run[0] == Start(programs)
    ensures ParkedWorkers(Last(run)) == 0
  {
    hide PeakOf, CallersOf, Step, CallsKeepOffPool;
    NoCallersOfExactly(programs);
    PeakOfAtMostCallers(programs);
    ParkedAtMostPeak(n, programs, run);
  }

  /** Deadlock freedom: with closures off the pool, every schedule on a pool of
      any size comes to an end with every thread's own answer. */
  lemma OffPoolFinishes(n: nat, programs: seq<Closure>, run: seq<State>)
    requires n >= 1
    requires forall i | 0 <= i < |programs| :: CallsKeepOffPool(programs[i])
    requires IsRun(n, run) && run[0] == Start(programs)
    ensures |run| - 1 <= Work(Start(programs))
    ensures Stopped(n, Last(run)) ==> AllReturned(Last(run)) && Finished(programs, Last(run))
    ensures Stopped(n, Last(run)) ==>
              && |Last(run).threads| == |programs|
              && forall i | 0 <= i < |programs| :: Last(run).threads[i] == At(Return(Answer(programs[i])))
  {
    hide PeakOf, CallersOf, Step, CallsKeepOffPool, Stopped;
    EveryRun(n, programs, run);
    NoCallersOfExactly(programs);
    CallersFinishExactly(n, 0);
    assert Finishes(n, programs);
  }

  /******* What a call sees when its wait returns *******/

  /** `c` is a call in progress on `t`, or on anything it waits for. */
  predicate CallIn(c: Call, t: Thread)
    decreases t
  {
    t.InBlocking? && (c == t.call || (t.call.task.Working? && CallInJob(c, t.call.task.job)))
  }

  predicate CallInJob(c: Call, j: Job)
    decreases j
  {
    match j
    case Suspended(closure, _, _) => CallIn(c, closure)
    case Inlined(closure, _, _) => CallIn(c, closure)
    case Joining(children, _, _) => exists i | 0 <= i < |children| :: CallInJob(c, children[i])
    case _ => false
  }

  /** A variable still has the body, or the task still runs it. */
  predicate HoldsBody(c: Call) {
    c.pending.Some? || c.taken.Some? || c.task.Working?
  }

  /** A call is in a thread whose own it is, and in one that waits, through a body
      that awaits a closure, for a thread that it is in. */
  lemma CallsBelow(c: Call, t: Thread, below: Thread, f: Body, otherwise: Body, js: seq<Job>, i: nat)
    requires t.InBlocking?
    ensures CallIn(t.call, t)
    ensures t.call.task.Working? && CallInJob(c, t.call.task.job) ==> CallIn(c, t)
    ensures CallIn(c, below) ==> CallInJob(c, Suspended(below, f, otherwise)) && CallInJob(c, Inlined(below, f, otherwise))
    ensures i < |js| && CallInJob(c, js[i]) ==> CallInJob(c, Joining(js, f, otherwise))
  {
  }

  lemma {:induction false} ThreadCallsValid(c: Call, t: Thread)
    requires ValidThread(t) && CallIn(c, t)
    ensures ValidCall(c)
    decreases t
  {
    if c != t.call {
      JobCallsValid(c, t.call.task.job);
    }
  }

  lemma {:induction false} JobCallsValid(c: Call, j: Job)
    requires ValidJob(j) && CallInJob(c, j)
    ensures ValidCall(c)
    decreases j
  {
    match j
    case Suspended(closure, _, _) => ThreadCallsValid(c, closure);
    case Inlined(closure, _, _) => ThreadCallsValid(c, closure);
    case Joining(children, _, _) =>
      var i :| 0 <= i < |children| && CallInJob(c, children[i]);
      JobCallsValid(c, children[i]);
  }

  /** In every interleaving, a wait returns only when `outcome` holds what the
      call's own body returned or threw and nothing still holds that body, so
      the `noOutcome` guard is unreachable and the body needn't escape. */
  lemma WaitReturnsOwnOutcome(n: nat, programs: seq<Closure>, run: seq<State>, i: nat, c: Call)
    requires IsRun(n, run) && run[0] == Start(programs)
    requires i < |Last(run).threads| && CallIn(c, Last(run).threads[i])
    ensures c.signals > 0 ==> c.signals == 1 && c.outcome == Some(Meaning(c.body)) && !HoldsBody(c)
    ensures c.signals == 0 <==> !(c.task.Signalled? || c.task.Exited?)
    ensures c.signals == 0 && !c.task.Released? ==> HoldsBody(c)
  {
    EveryRun(n, programs, run);
    ThreadCallsValid(c, Last(run).threads[i]);
  }
}
