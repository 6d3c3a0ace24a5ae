/** The worker pool: its critical sections and notifications as steps of a state machine, in any
    interleaving of any number of callers and workers. */
module WorkerPool {
  import opened Lists

  /** Waking: about to take the lock and test the wait condition. */
  datatype Worker<J> = Waking | Sleeping | Running(job: J) | Exited

  /** `toNotify` counts enqueues that have pushed their job but not yet called notify_one, `toNotifyAll`
      shutdowns that have set the flag but not yet called notify_all. */
  datatype Pool<J> = Pool(
    workers: seq<Worker<J>>,
    jobs: seq<J>,
    shutdown: bool,
    maxQueued: nat,
    toNotify: nat,
    toNotifyAll: nat)

  datatype Action<J> =
    | Enqueue(job: J)
    | NotifyOne(worker: nat)
    | Shutdown
    | NotifyAll
    | Spurious(worker: nat)
    | Check(worker: nat)
    | Finish(worker: nat)

  function AllWaking<J>(n: nat): (r: seq<Worker<J>>)
    ensures |r| == n && forall i :: 0 <= i < n ==> r[i] == Waking
  {
    if n == 0 then [] else AllWaking(n - 1) + [Waking]
  }

  function Start<J>(n: nat, maxQueued: nat): Pool<J> {
    Pool(AllWaking(n), [], false, maxQueued, 0, 0)
  }

  predicate Full<J>(p: Pool<J>) {
    p.maxQueued > 0 && |p.jobs| >= p.maxQueued
  }

  predicate Asleep<J>(p: Pool<J>, w: nat) {
    w < |p.workers| && p.workers[w].Sleeping?
  }

  predicate SomeAsleep<J>(p: Pool<J>) {
    exists w :: 0 <= w < |p.workers| && p.workers[w].Sleeping?
  }

  /** notify_one picks any sleeping worker, and is lost when none sleeps. */
  predicate Enabled<J>(p: Pool<J>, a: Action<J>) {
    match a
    case Enqueue(_) => true
    case NotifyOne(w) => p.toNotify > 0 && (Asleep(p, w) || !SomeAsleep(p))
    case Shutdown => true
    case NotifyAll => p.toNotifyAll > 0
    case Spurious(w) => Asleep(p, w)
    case Check(w) => w < |p.workers| && p.workers[w].Waking?
    case Finish(w) => w < |p.workers| && p.workers[w].Running?
  }

  function WakeAll<J>(ws: seq<Worker<J>>): (r: seq<Worker<J>>)
    ensures |r| == |ws|
    ensures forall i :: 0 <= i < |ws| ==> r[i] == if ws[i].Sleeping? then Waking else ws[i]
  {
    if ws == [] then [] else WakeAll(Init(ws)) + [if Last(ws).Sleeping? then Waking else Last(ws)]
  }

  /** What a worker does under the lock: sleep, leave, or take the first job. */
  function Checked<J>(p: Pool<J>, w: nat): Pool<J>
    requires w < |p.workers|
  {
    if p.jobs == [] && !p.shutdown then p.(workers := p.workers[w := Sleeping])
    else if p.jobs == [] then p.(workers := p.workers[w := Exited])
    else p.(workers := p.workers[w := Running(p.jobs[0])], jobs := p.jobs[1..])
  }

  function Apply<J>(p: Pool<J>, a: Action<J>): Pool<J>
    requires Enabled(p, a)
  {
    match a
    case Enqueue(job) => if Full(p) then p else p.(jobs := p.jobs + [job], toNotify := p.toNotify + 1)
    case NotifyOne(w) =>
      p.(toNotify := p.toNotify - 1, workers := if Asleep(p, w) then p.workers[w := Waking] else p.workers)
    case Shutdown => p.(shutdown := true, toNotifyAll := p.toNotifyAll + 1)
    case NotifyAll => p.(toNotifyAll := p.toNotifyAll - 1, workers := WakeAll(p.workers))
    case Spurious(w) => p.(workers := p.workers[w := Waking])
    case Check(w) => Checked(p, w)
    case Finish(w) => p.(workers := p.workers[w := Waking])
  }

  ghost predicate IsRun<J>(states: seq<Pool<J>>, actions: seq<Action<J>>) {
    && |states| == |actions| + 1
    && (exists n, m :: states[0] == Start(n, m))
    && forall k :: 0 <= k < |actions| ==>
         Enabled(states[k], actions[k]) && states[k + 1] == Apply(states[k], actions[k])
  }

  // ----- What has been accepted, dispatched and finished -----

  function AcceptedNow<J>(p: Pool<J>, a: Action<J>): seq<J> {
    if a.Enqueue? && !Full(p) then [a.job] else []
  }

  function DispatchedNow<J>(p: Pool<J>, a: Action<J>): seq<J> {
    if a.Check? && p.jobs != [] then [p.jobs[0]] else []
  }

  function FinishedNow<J>(p: Pool<J>, a: Action<J>): seq<J> {
    if a.Finish? && a.worker < |p.workers| && p.workers[a.worker].Running? then [p.workers[a.worker].job] else []
  }

  function Accepted<J>(states: seq<Pool<J>>, actions: seq<Action<J>>, n: nat): seq<J>
    requires |states| == |actions| + 1 && n <= |actions|
  {
    if n == 0 then [] else Accepted(states, actions, n - 1) + AcceptedNow(states[n - 1], actions[n - 1])
  }

  function Dispatched<J>(states: seq<Pool<J>>, actions: seq<Action<J>>, n: nat): seq<J>
    requires |states| == |actions| + 1 && n <= |actions|
  {
    if n == 0 then [] else Dispatched(states, actions, n - 1) + DispatchedNow(states[n - 1], actions[n - 1])
  }

  function Finished<J>(states: seq<Pool<J>>, actions: seq<Action<J>>, n: nat): seq<J>
    requires |states| == |actions| + 1 && n <= |actions|
  {
    if n == 0 then [] else Finished(states, actions, n - 1) + FinishedNow(states[n - 1], actions[n - 1])
  }

  // ----- Order, and each job at most once -----

  /** Jobs are dispatched in the order in which they were accepted, each once. */
  lemma {:induction false} DispatchedInOrder<J>(states: seq<Pool<J>>, actions: seq<Action<J>>, n: nat)
    requires IsRun(states, actions) && n <= |actions|
    ensures Accepted(states, actions, n) == Dispatched(states, actions, n) + states[n].jobs
    decreases n
  {
    hide AcceptedNow, DispatchedNow, Enabled, Apply;
    if n == 0 {
    } else {
      DispatchedInOrder(states, actions, n - 1);
      var p, a := states[n - 1], actions[n - 1];
      QueueStep(p, a);
      Regroup(Dispatched(states, actions, n - 1), p.jobs, AcceptedNow(p, a), DispatchedNow(p, a), states[n].jobs);
    }
  }

  lemma Regroup<T>(done: seq<T>, queue: seq<T>, entering: seq<T>, leaving: seq<T>, queue': seq<T>)
    requires queue + entering == leaving + queue'
    ensures done + queue + entering == done + leaving + queue'
  {
    assert done + queue + entering == done + (queue + entering);
    assert done + leaving + queue' == done + (leaving + queue');
  }

  lemma QueueStep<J>(p: Pool<J>, a: Action<J>)
    requires Enabled(p, a)
    ensures p.jobs + AcceptedNow(p, a) == DispatchedNow(p, a) + Apply(p, a).jobs
  {
    if a.Check? && p.jobs != [] {
      assert p.jobs == [p.jobs[0]] + p.jobs[1..];
    }
  }

  // ----- When a job is accepted -----

  /** The jobs of all calls of enqueue. */
  function Offered<J>(actions: seq<Action<J>>, n: nat): seq<J>
    requires n <= |actions|
  {
    if n == 0 then []
    else Offered(actions, n - 1) + if actions[n - 1].Enqueue? then [actions[n - 1].job] else []
  }

  lemma {:induction false} BoundStays<J>(states: seq<Pool<J>>, actions: seq<Action<J>>, n: nat)
    requires IsRun(states, actions) && n <= |actions|
    ensures states[n].maxQueued == states[0].maxQueued
    decreases n
  {
    if n == 0 {
    } else {
      BoundStays(states, actions, n - 1);
    }
  }

  /** The pool accepts a job exactly if there is no bound, or fewer jobs than the bound have been accepted and not
      been dispatched yet. */
  lemma AcceptedIff<J>(states: seq<Pool<J>>, actions: seq<Action<J>>, workers: nat, bound: nat, k: nat)
    requires IsRun(states, actions) && k < |actions| && states[0] == Start(workers, bound) && actions[k].Enqueue?
    ensures var before := Accepted(states, actions, k);
            Accepted(states, actions, k + 1) ==
            if bound == 0 || |before| - |Dispatched(states, actions, k)| < bound then before + [actions[k].job]
            else before
  {
    BoundStays(states, actions, k);
    DispatchedInOrder(states, actions, k);
  }

  /** A pool without a bound refuses nobody: the jobs dispatched, followed by those queued, are the jobs of all
      calls of enqueue, in order. */
  lemma {:induction false} UnboundedTakesAll<J>(states: seq<Pool<J>>, actions: seq<Action<J>>, workers: nat, n: nat)
    requires IsRun(states, actions) && n <= |actions| && states[0] == Start(workers, 0)
    ensures Dispatched(states, actions, n) + states[n].jobs == Offered(actions, n)
  {
    DispatchedInOrder(states, actions, n);
    UnboundedAcceptsAll(states, actions, workers, n);
  }

  lemma {:induction false} UnboundedAcceptsAll<J>(states: seq<Pool<J>>, actions: seq<Action<J>>, workers: nat, n: nat)
    requires IsRun(states, actions) && n <= |actions| && states[0] == Start(workers, 0)
    ensures Accepted(states, actions, n) == Offered(actions, n)
    decreases n
  {
    if n == 0 {
    } else {
      UnboundedAcceptsAll(states, actions, workers, n - 1);
      if actions[n - 1].Enqueue? {
        AcceptedIff(states, actions, workers, 0, n - 1);
      }
    }
  }

  // ----- Each job is run once -----

  function Runs<J(==)>(w: Worker<J>, job: J): nat {
    if w.Running? && w.job == job then 1 else 0
  }

  /** How many workers are running a job. */
  function Runners<J(==)>(ws: seq<Worker<J>>, job: J): nat {
    if ws == [] then 0 else Runners(Init(ws), job) + Runs(Last(ws), job)
  }

  lemma {:induction false} RunnersAfterUpdate<J>(ws: seq<Worker<J>>, i: nat, w: Worker<J>, job: J)
    requires i < |ws|
    ensures Runners(ws[i := w], job) + Runs(ws[i], job) == Runners(ws, job) + Runs(w, job)
  {
    if i == |ws| - 1 {
      assert Init(ws[i := w]) == Init(ws);
    } else {
      RunnersAfterUpdate(Init(ws), i, w, job);
      assert Init(ws[i := w]) == Init(ws)[i := w];
    }
  }

  lemma {:induction false} RunnersAfterWakeAll<J>(ws: seq<Worker<J>>, job: J)
    ensures Runners(WakeAll(ws), job) == Runners(ws, job)
  {
    if ws == [] {
    } else {
      RunnersAfterWakeAll(Init(ws), job);
      assert Init(WakeAll(ws)) == WakeAll(Init(ws));
    }
  }

  lemma {:induction false} NoRunners<J>(ws: seq<Worker<J>>, job: J)
    requires forall i :: 0 <= i < |ws| ==> !ws[i].Running?
    ensures Runners(ws, job) == 0
  {
    if ws == [] {
    } else {
      assert forall i :: 0 <= i < |ws| - 1 ==> Init(ws)[i] == ws[i];
      NoRunners(Init(ws), job);
    }
  }

  function Occurs<J(==)>(s: seq<J>, job: J): nat {
    multiset(s)[job]
  }

  lemma OccursConcat<J>(a: seq<J>, b: seq<J>, job: J)
    ensures Occurs(a + b, job) == Occurs(a, job) + Occurs(b, job)
  {
    assert multiset(a + b) == multiset(a) + multiset(b);
  }

  lemma OccursSingle<J>(j: J, job: J)
    ensures Occurs([j], job) == if j == job then 1 else 0
    ensures Occurs([], job) == 0
  {
  }

  lemma StepKeepsRunners<J>(p: Pool<J>, a: Action<J>, job: J)
    requires Enabled(p, a)
    ensures Runners(p.workers, job) + Occurs(DispatchedNow(p, a), job)
         == Occurs(FinishedNow(p, a), job) + Runners(Apply(p, a).workers, job)
  {
    hide Runners, WakeAll, Occurs;
    OccursSingle(job, job);
    match a
    case Enqueue(_) =>
    case Shutdown =>
    case NotifyAll => RunnersAfterWakeAll(p.workers, job);
    case NotifyOne(w) => if Asleep(p, w) { RunnersAfterUpdate(p.workers, w, Waking, job); }
    case Spurious(w) => RunnersAfterUpdate(p.workers, w, Waking, job);
    case Finish(w) =>
      OccursSingle(p.workers[w].job, job);
      RunnersAfterUpdate(p.workers, w, Waking, job);
    case Check(w) =>
      RunnersAfterUpdate(p.workers, w, Checked(p, w).workers[w], job);
      if p.jobs != [] {
        OccursSingle(p.jobs[0], job);
      }
  }

  /** Every dispatched job is either being run by exactly one worker or has finished: of each job, as many
      as were dispatched. */
  lemma {:induction false} DispatchedRunOnce<J>(states: seq<Pool<J>>, actions: seq<Action<J>>, n: nat, job: J)
    requires IsRun(states, actions) && n <= |actions|
    ensures Occurs(Dispatched(states, actions, n), job)
         == Occurs(Finished(states, actions, n), job) + Runners(states[n].workers, job)
    decreases n
  {
    hide Runners, Occurs, DispatchedNow, FinishedNow, Enabled, Apply;
    if n == 0 {
      NoRunners(states[0].workers, job);
    } else {
      DispatchedRunOnce(states, actions, n - 1, job);
      var p, a := states[n - 1], actions[n - 1];
      StepKeepsRunners(p, a, job);
      OccursConcat(Dispatched(states, actions, n - 1), DispatchedNow(p, a), job);
      OccursConcat(Finished(states, actions, n - 1), FinishedNow(p, a), job);
    }
  }

  // ----- No wake-up is lost -----

  function Awake<J>(ws: seq<Worker<J>>): nat {
    if ws == [] then 0 else Awake(Init(ws)) + if Last(ws).Waking? then 1 else 0
  }

  lemma {:induction false} AwakeAfterUpdate<J>(ws: seq<Worker<J>>, i: nat, w: Worker<J>)
    requires i < |ws|
    ensures Awake(ws[i := w]) + (if ws[i].Waking? then 1 else 0) == Awake(ws) + if w.Waking? then 1 else 0
  {
    if i == |ws| - 1 {
      assert Init(ws[i := w]) == Init(ws);
    } else {
      AwakeAfterUpdate(Init(ws), i, w);
      assert Init(ws[i := w]) == Init(ws)[i := w];
    }
  }

  lemma {:induction false} AwakePositive<J>(ws: seq<Worker<J>>)
    ensures Awake(ws) > 0 <==> exists i :: 0 <= i < |ws| && ws[i].Waking?
  {
    if ws == [] {
    } else {
      AwakePositive(Init(ws));
      assert forall i :: 0 <= i < |ws| - 1 ==> Init(ws)[i] == ws[i];
      assert Last(ws) == ws[|ws| - 1];
    }
  }

  /** While anybody sleeps, every queued job has a worker or a notification on its way; nobody sleeps
      through a shutdown; the queue bound holds; workers leave only after shutdown. */
  ghost predicate Sound<J>(p: Pool<J>) {
    && (SomeAsleep(p) ==> |p.jobs| <= p.toNotify + Awake(p.workers))
    && (p.shutdown && p.toNotifyAll == 0 ==> !SomeAsleep(p))
    && (p.maxQueued > 0 ==> |p.jobs| <= p.maxQueued)
    && forall w :: 0 <= w < |p.workers| && p.workers[w].Exited? ==> p.shutdown
  }

  lemma StepKeepsSound<J>(p: Pool<J>, a: Action<J>)
    requires Sound(p) && Enabled(p, a)
    ensures Sound(Apply(p, a)) && |Apply(p, a).workers| == |p.workers|
  {
    match a
    case Enqueue(_) =>
    case Shutdown =>
    case NotifyAll =>
    case NotifyOne(w) => if Asleep(p, w) { StepWakes(p, w); }
    case Spurious(w) => StepWakes(p, w);
    case Finish(w) => StepWakes(p, w);
    case Check(w) =>
      AwakeAfterUpdate(p.workers, w, Checked(p, w).workers[w]);
      assert forall i :: 0 <= i < |p.workers| && i != w ==> Checked(p, w).workers[i] == p.workers[i];
  }

  lemma StepWakes<J>(p: Pool<J>, w: nat)
    requires w < |p.workers| && !p.workers[w].Waking?
    ensures Awake(p.workers[w := Waking]) == Awake(p.workers) + 1
    ensures forall i :: 0 <= i < |p.workers| ==> p.workers[w := Waking][i] == if i == w then Waking else p.workers[i]
  {
    AwakeAfterUpdate(p.workers, w, Waking);
  }

  lemma {:induction false} RunIsSound<J>(states: seq<Pool<J>>, actions: seq<Action<J>>, n: nat)
    requires IsRun(states, actions) && n <= |actions|
    ensures Sound(states[n]) && |states[n].workers| == |states[0].workers|
    decreases n
  {
    if n > 0 {
      hide Sound;
      RunIsSound(states, actions, n - 1);
      StepKeepsSound(states[n - 1], actions[n - 1]);
    } else {
      FreshPool(states, actions);
    }
  }

  lemma FreshPool<J>(states: seq<Pool<J>>, actions: seq<Action<J>>)
    requires IsRun(states, actions)
    ensures Sound(states[0])
  {
  }

  predicate AllExited<J>(p: Pool<J>) {
    forall w :: 0 <= w < |p.workers| ==> p.workers[w].Exited?
  }

  /** The pool itself can move: some worker is not waiting for anybody, or a notification is due. */
  predicate CanMove<J>(p: Pool<J>) {
    || p.toNotify > 0 || p.toNotifyAll > 0
    || exists w :: 0 <= w < |p.workers| && (p.workers[w].Waking? || p.workers[w].Running?)
  }

  /** With work queued or shutdown set, the pool is never stuck with a worker still there. */
  lemma NeverStuck<J>(states: seq<Pool<J>>, actions: seq<Action<J>>, n: nat)
    requires IsRun(states, actions) && n <= |actions|
    requires states[n].jobs != [] || states[n].shutdown
    ensures CanMove(states[n]) || AllExited(states[n])
  {
    RunIsSound(states, actions, n);
    AwakePositive(states[n].workers);
  }

  /** A queued job that nobody is on the way for can only be waiting for busy workers. */
  lemma NoLostWakeup<J>(states: seq<Pool<J>>, actions: seq<Action<J>>, n: nat)
    requires IsRun(states, actions) && n <= |actions|
    requires |states[n].jobs| > states[n].toNotify + Awake(states[n].workers)
    ensures forall w :: 0 <= w < |states[n].workers| ==> !states[n].workers[w].Sleeping?
  {
    RunIsSound(states, actions, n);
  }

  // ----- Shutdown drains the pool -----

  function Steps<J>(w: Worker<J>): nat {
    match w
    case Sleeping => 2
    case Running(_) => 2
    case Waking => 1
    case Exited => 0
  }

  function AllSteps<J>(ws: seq<Worker<J>>): nat {
    if ws == [] then 0 else AllSteps(Init(ws)) + Steps(Last(ws))
  }

  /** An upper bound on the steps that a pool told to shut down still takes. */
  function Remaining<J>(p: Pool<J>): nat {
    2 * |p.jobs| + p.toNotify + p.toNotifyAll + AllSteps(p.workers)
  }

  lemma {:induction false} AllStepsAfterUpdate<J>(ws: seq<Worker<J>>, i: nat, w: Worker<J>)
    requires i < |ws|
    ensures AllSteps(ws[i := w]) + Steps(ws[i]) == AllSteps(ws) + Steps(w)
  {
    if i == |ws| - 1 {
      assert Init(ws[i := w]) == Init(ws);
    } else {
      AllStepsAfterUpdate(Init(ws), i, w);
      assert Init(ws[i := w]) == Init(ws)[i := w];
    }
  }

  lemma {:induction false} AllStepsAfterWakeAll<J>(ws: seq<Worker<J>>)
    ensures AllSteps(WakeAll(ws)) <= AllSteps(ws)
  {
    if ws == [] {
    } else {
      AllStepsAfterWakeAll(Init(ws));
      assert Init(WakeAll(ws)) == WakeAll(Init(ws));
    }
  }

  /** After shutdown every step that is not a new call brings the end nearer, spurious wake-ups included. */
  lemma DrainStep<J>(p: Pool<J>, a: Action<J>)
    requires Enabled(p, a) && p.shutdown && !a.Enqueue? && !a.Shutdown?
    ensures Apply(p, a).shutdown && Remaining(Apply(p, a)) < Remaining(p)
  {
    match a
    case NotifyAll => AllStepsAfterWakeAll(p.workers);
    case NotifyOne(w) => if Asleep(p, w) { AllStepsAfterUpdate(p.workers, w, Waking); }
    case Spurious(w) => AllStepsAfterUpdate(p.workers, w, Waking);
    case Finish(w) => AllStepsAfterUpdate(p.workers, w, Waking);
    case Check(w) => AllStepsAfterUpdate(p.workers, w, Checked(p, w).workers[w]);
  }

  /** Once told to shut down and left alone, a pool stops within `Remaining` steps. */
  lemma {:induction false} DrainEnds<J>(states: seq<Pool<J>>, actions: seq<Action<J>>, m: nat, n: nat)
    requires IsRun(states, actions) && m <= n <= |actions| && states[m].shutdown
    requires forall k :: m <= k < n ==> !actions[k].Enqueue? && !actions[k].Shutdown?
    ensures states[n].shutdown && n - m + Remaining(states[n]) <= Remaining(states[m])
    decreases n
  {
    if m == n {
    } else {
      DrainEnds(states, actions, m, n - 1);
      DrainStep(states[n - 1], actions[n - 1]);
    }
  }

  // ----- Which jobs run -----

  lemma {:induction false} AcceptedGrows<J>(states: seq<Pool<J>>, actions: seq<Action<J>>, m: nat, n: nat)
    requires |states| == |actions| + 1 && m <= n <= |actions|
    ensures Accepted(states, actions, m) <= Accepted(states, actions, n)
    decreases n
  {
    if m == n {
    } else {
      AcceptedGrows(states, actions, m, n - 1);
    }
  }

  /** The last worker leaves only when everything accepted so far has been dispatched. */
  lemma {:induction false} AcceptedWhileOpen<J>(states: seq<Pool<J>>, actions: seq<Action<J>>, m: nat, n: nat)
    requires IsRun(states, actions) && m <= n <= |actions|
    requires !AllExited(states[m]) && AllExited(states[n])
    ensures Accepted(states, actions, m) <= Dispatched(states, actions, n)
    decreases n
  {
    var p, a := states[n - 1], actions[n - 1];
    if AllExited(p) {
      AcceptedWhileOpen(states, actions, m, n - 1);
    } else {
      LastToLeave(p, a);
      DispatchedInOrder(states, actions, n);
      AcceptedGrows(states, actions, m, n);
    }
  }

  lemma LastToLeave<J>(p: Pool<J>, a: Action<J>)
    requires Enabled(p, a) && !AllExited(p) && AllExited(Apply(p, a))
    ensures Apply(p, a).jobs == []
  {
    var w :| 0 <= w < |p.workers| && !p.workers[w].Exited?;
    assert Apply(p, a).workers[w].Exited?;
  }

  /** Once all workers have been joined, every job accepted before shutdown has run to its end. */
  lemma ShutdownRunsEverything<J(!new)>(states: seq<Pool<J>>, actions: seq<Action<J>>, m: nat, n: nat)
    requires IsRun(states, actions) && m <= n <= |actions| && |states[0].workers| >= 1
    requires !states[m].shutdown && AllExited(states[n])
    ensures Accepted(states, actions, m) <= Dispatched(states, actions, n)
    ensures forall job :: Occurs(Finished(states, actions, n), job) == Occurs(Dispatched(states, actions, n), job)
  {
    RunIsSound(states, actions, m);
    assert !states[m].workers[0].Exited?;
    AcceptedWhileOpen(states, actions, m, n);
    forall job
      ensures Occurs(Finished(states, actions, n), job) == Occurs(Dispatched(states, actions, n), job)
    {
      DispatchedRunOnce(states, actions, n, job);
      NoRunners(states[n].workers, job);
    }
  }

  /** enqueue does not look at the shutdown flag: a job accepted after the last worker left never runs. */
  lemma {:induction false} AcceptedTooLate<J>(states: seq<Pool<J>>, actions: seq<Action<J>>, m: nat, n: nat)
    requires IsRun(states, actions) && m <= n <= |actions| && AllExited(states[m])
    ensures AllExited(states[n]) && Dispatched(states, actions, n) == Dispatched(states, actions, m)
    decreases n
  {
    hide AllExited, DispatchedNow, Enabled, Apply;
    if m == n {
    } else {
      AcceptedTooLate(states, actions, m, n - 1);
      NobodyLeft(states[n - 1], actions[n - 1]);
    }
  }

  lemma NobodyLeft<J>(p: Pool<J>, a: Action<J>)
    requires Enabled(p, a) && AllExited(p)
    ensures AllExited(Apply(p, a)) && DispatchedNow(p, a) == []
  {
  }

  lemma OccursInPrefix<J>(a: seq<J>, b: seq<J>, job: J)
    requires a <= b
    ensures Occurs(a, job) <= Occurs(b, job)
  {
    hide Occurs;
    assert b == a + b[|a|..];
    OccursConcat(a, b[|a|..], job);
  }

  /** A job accepted at step m is run to its end exactly if some worker had not left yet: once all workers
      have been joined, the job has finished once more than it had been accepted before. */
  lemma JobRunsIffPoolOpen<J>(states: seq<Pool<J>>, actions: seq<Action<J>>, m: nat, n: nat)
    requires IsRun(states, actions) && m < n <= |actions| && AllExited(states[n])
    requires AcceptedNow(states[m], actions[m]) != []
    ensures var job := actions[m].job;
            Occurs(Finished(states, actions, n), job) > Occurs(Accepted(states, actions, m), job) <==>
              !AllExited(states[m])
  {
    hide Occurs, Dispatched, Finished, Runners;
    var job := actions[m].job;
    var accepted, dispatched := Accepted(states, actions, m), Dispatched(states, actions, n);
    assert states[m + 1].workers == states[m].workers;
    DispatchedInOrder(states, actions, m);
    DispatchedRunOnce(states, actions, n, job);
    NoRunners(states[n].workers, job);
    if AllExited(states[m]) {
      AcceptedTooLate(states, actions, m, n);
      OccursInPrefix(dispatched, accepted, job);
    } else {
      AcceptedWhileOpen(states, actions, m + 1, n);
      OccursInPrefix(accepted + [job], dispatched, job);
      OccursConcat(accepted, [job], job);
      OccursSingle(job, job);
    }
  }

  /** Such a job exists: one worker, which leaves on shutdown before the job comes in. */
  lemma LateJobNeverRuns<J>(job: J) returns (states: seq<Pool<J>>, actions: seq<Action<J>>)
    ensures IsRun(states, actions) && |actions| == 3 && states[0] == Start(1, 0)
    ensures AllExited(states[2]) && AcceptedNow(states[2], actions[2]) == [job]
    ensures AllExited(states[3]) && states[3].jobs == [job] && Finished(states, actions, 3) == []
  {
    var s0: Pool<J> := Start(1, 0);
    var s1 := Apply(s0, Action.Shutdown);
    var s2 := Apply(s1, Check(0));
    actions := [Action.Shutdown, Check(0), Action.Enqueue(job)];
    states := [s0, s1, s2, Apply(s2, Action.Enqueue(job))];
    assert Finished(states, actions, 0) == Finished(states, actions, 1) == Finished(states, actions, 2) == [];
  }

  // ----- The pool itself -----

  /** One method per stretch that holds the lock, and one per notification: each is one step of the machine. */
  class ThreadPool<J> {
    var threads: seq<Worker<J>>
    var jobs: seq<J>
    var shutdown: bool
    var maxQueuedRequests: nat
    var toNotify: nat
    var toNotifyAll: nat

    function View(): Pool<J>
      reads this
    {
      Pool(threads, jobs, shutdown, maxQueuedRequests, toNotify, toNotifyAll)
    }

    constructor (n: nat, mqr: nat)
      ensures View() == Start(n, mqr)
      ensures |threads| == n && (forall w :: 0 <= w < n ==> threads[w].Waking?)
      ensures jobs == [] && !shutdown && maxQueuedRequests == mqr
    {
      jobs, shutdown, maxQueuedRequests, toNotify, toNotifyAll := [], false, mqr, 0, 0;
      threads := [];
      new;
      var left := n;
      while left > 0
        invariant 0 <= left <= n && threads == AllWaking(n - left)
        invariant View() == Start(n, mqr).(workers := threads)
      {
        threads := threads + [Waking];
        left := left - 1;
      }
    }

    method Enqueue(job: J) returns (accepted: bool)
      modifies this
      ensures View() == Apply(old(View()), Action.Enqueue(job))
      ensures accepted <==> maxQueuedRequests == 0 || old(|jobs|) < maxQueuedRequests
      ensures jobs == if accepted then old(jobs) + [job] else old(jobs)
      ensures AcceptedNow(old(View()), Action.Enqueue(job)) == if accepted then [job] else []
    {
      if maxQueuedRequests > 0 && |jobs| >= maxQueuedRequests {
        return false;
      }
      jobs := jobs + [job];
      toNotify := toNotify + 1;
      return true;
    }

    method NotifyOne(woken: nat)
      requires Enabled(View(), Action.NotifyOne(woken))
      modifies this
      ensures View() == Apply(old(View()), Action.NotifyOne(woken))
    {
      toNotify := toNotify - 1;
      if woken < |threads| && threads[woken].Sleeping? {
        threads := threads[woken := Waking];
      }
    }

    method Shutdown()
      modifies this
      ensures View() == Apply(old(View()), Action.Shutdown)
    {
      shutdown := true;
      toNotifyAll := toNotifyAll + 1;
    }

    method NotifyAll()
      requires Enabled(View(), Action.NotifyAll)
      modifies this
      ensures View() == Apply(old(View()), Action.NotifyAll)
    {
      toNotifyAll := toNotifyAll - 1;
      threads := WakeAll(threads);
    }

    /** A worker tests the wait condition: no job to take means that it waits or, after shutdown, leaves. */
    method Work(w: nat) returns (fn: Option<J>)
      requires Enabled(View(), Check(w))
      modifies this
      ensures View() == Apply(old(View()), Check(w))
      ensures DispatchedNow(old(View()), Check(w)) == if fn.Some? then [fn.value] else []
    {
      if jobs == [] && !shutdown {
        threads := threads[w := Sleeping];
        return None;
      }
      if shutdown && jobs == [] {
        threads := threads[w := Exited];
        return None;
      }
      fn := Some(jobs[0]);
      jobs := jobs[1..];
      threads := threads[w := Running(fn.value)];
    }

    method Done(w: nat)
      requires Enabled(View(), Finish(w))
      modifies this
      ensures View() == Apply(old(View()), Finish(w))
    {
      threads := threads[w := Waking];
    }
  }
}
