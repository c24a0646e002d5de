/** The worker pool as a protocol. A step is what one thread does between two points where another may
    act: taking the mutex, one read or write of an atomic flag, or a whole critical section. */
module TaskQueue {
  import opened Common

  /** What a caller pushes; only its identity matters here. */
  type Work = nat

  datatype Policy = WaitForQueueCompletion | StopAfterCurrentTask

  /** Where a worker is in its loop. Blocking on the condition variable is `Waiting`: waking up, for
      whatever reason, takes the mutex again and evaluates the predicate again. */
  datatype Worker =
    | Waiting
    | Holding
    | Checked
    | Deciding
    | Taking
    | Running(number: nat, work: Work)
    | Exited

  /** Where the controlling thread is inside start, stop or wait_for_completion. */
  datatype Controller =
    | Idle
    | Spawning(left: nat)
    | Flagging(wait: bool)
    | Clearing(wait: bool)
    | Joining(wait: bool, next: nat)
    | Joined(wait: bool)
    | Resetting(wait: bool)
    | Restoring
    | Starting

  /** The fields of the class, the threads, and the history: what was accepted, what was taken, which of
      those have finished, how much had been accepted and how much was still queued when stop was last
      requested, and whether front was ever called on an empty deque. */
  datatype State = State(
    tasks: seq<Work>, running: bool, stop: bool, policy: Policy, numWorkers: nat,
    owner: Option<nat>, workers: seq<Worker>, controller: Controller, pending: map<nat, Work>,
    accepted: seq<Work>, taken: seq<Work>, finished: set<nat>, mark: nat, queued: nat, frontOfEmpty: bool)

  datatype Action =
    | Lock(w: nat) | Check(w: nat) | ReadStop(w: nat) | Decide(w: nat) | Take(w: nat) | Finish(w: nat)
    | SetNumWorkers(num: nat) | Start | Spawn | Stop | Wait | SetFlag | ClearRunning | Join | ClearWorkers | ResetFlag | RestorePolicy
    | Offer(producer: nat, work: Work) | Push(producer: nat)

  function Initial(numWorkers: nat): (s: State) {
    State([], false, false, StopAfterCurrentTask, numWorkers, None, [], Idle, map[], [], [], {}, 0, 0, false)
  }

  predicate At(s: State, w: nat, at: Worker) {
    w < |s.workers| && s.workers[w] == at
  }

  function Move(s: State, w: nat, to: Worker): State
    requires w < |s.workers|
  {
    s.(workers := s.workers[w := to])
  }

  /** The steps of worker `w`. */
  function WorkerStep(s: State, a: Action): (r: Option<State>)
    requires a.Lock? || a.Check? || a.ReadStop? || a.Decide? || a.Take? || a.Finish?
  {
    match a
    case Lock(w) =>
      if At(s, w, Waiting) && s.owner == None then Some(Move(s, w, Holding).(owner := Some(w))) else None
    case Check(w) =>
      if !At(s, w, Holding) then None
      else if s.tasks != [] || s.stop then Some(Move(s, w, Checked))
      else Some(Move(s, w, Waiting).(owner := None))
    case ReadStop(w) =>
      if At(s, w, Checked) then Some(Move(s, w, if s.stop then Deciding else Taking)) else None
    case Decide(w) =>
      if !At(s, w, Deciding) then None
      else if s.tasks == [] || s.policy == StopAfterCurrentTask then Some(Move(s, w, Exited).(owner := None))
      else Some(Move(s, w, Taking))
    case Take(w) =>
      if !At(s, w, Taking) then None
      else if s.tasks == [] then Some(s.(frontOfEmpty := true))
      else Some(Move(s, w, Running(|s.taken|, s.tasks[0])).(owner := None, tasks := s.tasks[1..], taken := s.taken + [s.tasks[0]]))
    case Finish(w) =>
      if w < |s.workers| && s.workers[w].Running?
      then Some(Move(s, w, Waiting).(finished := s.finished + {s.workers[w].number})) else None
  }

  /** The steps of the thread that starts and stops the pool. Changing the number of workers of a running
      pool throws and changes nothing. */
  function ControllerStep(s: State, a: Action): (r: Option<State>)
    requires a.SetNumWorkers? || a.Start? || a.Spawn? || a.Stop? || a.Wait? || a.SetFlag? || a.ClearRunning?
             || a.Join? || a.ClearWorkers? || a.ResetFlag? || a.RestorePolicy?
  {
    match a
    case SetNumWorkers(num) =>
      if s.controller != Idle then None else if s.running then Some(s) else Some(s.(numWorkers := num))
    case Start =>
      if s.controller != Idle && s.controller != Starting then None
      else if s.running then Some(s.(controller := Idle))
      else Some(s.(running := true, controller := Spawning(s.numWorkers)))
    case Spawn =>
      if !s.controller.Spawning? then None
      else if s.controller.left == 0 then Some(s.(controller := Idle))
      else Some(s.(workers := s.workers + [Waiting], controller := Spawning(s.controller.left - 1)))
    case Stop =>
      if s.controller != Idle then None else if s.running then Some(s.(controller := Flagging(false))) else Some(s)
    case Wait =>
      if s.controller != Idle then None
      else if s.running then Some(s.(policy := WaitForQueueCompletion, controller := Flagging(true))) else Some(s)
    case SetFlag =>
      if s.controller.Flagging? then Some(s.(stop := true, mark := |s.accepted|, queued := |s.tasks|, controller := Clearing(s.controller.wait))) else None
    case ClearRunning =>
      if s.controller.Clearing? then Some(s.(running := false, controller := Joining(s.controller.wait, 0))) else None
    case Join =>
      if !s.controller.Joining? then None
      else if s.controller.next >= |s.workers| then Some(s.(controller := Joined(s.controller.wait)))
      else if s.workers[s.controller.next] == Exited then Some(s.(controller := Joining(s.controller.wait, s.controller.next + 1)))
      else None
    case ClearWorkers =>
      if s.controller.Joined? then Some(s.(workers := [], controller := Resetting(s.controller.wait))) else None
    case ResetFlag =>
      if s.controller.Resetting? then Some(s.(stop := false, controller := if s.controller.wait then Restoring else Idle)) else None
    case RestorePolicy =>
      if s.controller == Restoring then Some(s.(policy := StopAfterCurrentTask, controller := Starting)) else None
  }

  /** The steps of a thread that pushes: it looks at the stop flag first, and takes the mutex later. */
  function ProducerStep(s: State, a: Action): (r: Option<State>)
    requires a.Offer? || a.Push?
  {
    match a
    case Offer(p, work) =>
      if p in s.pending then None else if s.stop then Some(s) else Some(s.(pending := s.pending[p := work]))
    case Push(p) =>
      if p in s.pending && s.owner == None
      then Some(s.(tasks := s.tasks + [s.pending[p]], accepted := s.accepted + [s.pending[p]], pending := s.pending - {p}))
      else None
  }

  function Step(s: State, a: Action): (r: Option<State>) {
    if a.Lock? || a.Check? || a.ReadStop? || a.Decide? || a.Take? || a.Finish? then WorkerStep(s, a)
    else if a.Offer? || a.Push? then ProducerStep(s, a)
    else ControllerStep(s, a)
  }

  /** The state after a run, if every step was possible. */
  function Run(s: State, run: seq<Action>): (r: Option<State>) {
    if run == [] then Some(s)
    else match Run(s, run[..|run| - 1])
      case None => None
      case Some(s') => Step(s', run[|run| - 1])
  }

  // ---------------------------------------------------------------- the invariant

  predicate HoldsMutex(w: Worker) {
    w.Holding? || w.Checked? || w.Deciding? || w.Taking?
  }

  ghost predicate Exclusive(s: State) {
    && (forall w: nat :: w < |s.workers| && HoldsMutex(s.workers[w]) ==> s.owner == Some(w))
    && (s.owner.Some? ==> s.owner.value < |s.workers| && HoldsMutex(s.workers[s.owner.value]))
  }

  /** Task number `n` is in the hands of worker `w`. */
  ghost predicate InHand(s: State, w: int, n: nat) {
    0 <= w < |s.workers| && s.workers[w].Running? && s.workers[w].number == n
  }

  ghost predicate HeldOrFinished(s: State, n: nat) {
    n in s.finished || exists w :: InHand(s, w, n)
  }

  /** Every task taken is finished or in one worker's hands, never both. */
  ghost predicate Accounted(s: State) {
    && (forall n: nat :: n < |s.taken| ==> HeldOrFinished(s, n))
    && (forall n :: n in s.finished ==> n < |s.taken|)
    && (forall w, n: nat :: InHand(s, w, n) ==> n < |s.taken| && n !in s.finished && s.workers[w].work == s.taken[n])
    && (forall w, x, n: nat :: InHand(s, w, n) && InHand(s, x, n) ==> w == x)
  }

  ghost predicate ChecksHold(s: State, w: Worker) {
    && (w.Checked? ==> s.tasks != [] || s.stop)
    && (w.Deciding? || w.Exited? ==> s.stop)
    && (w.Taking? ==> s.tasks != [])
    && (w.Exited? && s.policy == WaitForQueueCompletion ==> s.mark <= |s.taken|)
  }

  ghost predicate WorkersOk(s: State) {
    forall w :: 0 <= w < |s.workers| ==> ChecksHold(s, s.workers[w])
  }

  ghost predicate ExitedBelow(s: State, n: int) {
    forall w :: 0 <= w < |s.workers| && w < n ==> s.workers[w].Exited?
  }

  ghost predicate ControllerOk(s: State) {
    match s.controller
    case Idle => !s.stop && s.policy == StopAfterCurrentTask && (!s.running ==> s.workers == []) && (s.running ==> |s.workers| == s.numWorkers)
    case Spawning(left) => !s.stop && s.running && s.policy == StopAfterCurrentTask && |s.workers| + left == s.numWorkers
    case Flagging(wait) => !s.stop && s.running && s.policy == PolicyOf(wait) && |s.workers| == s.numWorkers
    case Clearing(wait) => s.stop && s.running && s.policy == PolicyOf(wait) && |s.workers| == s.numWorkers && TakenSince(s)
    case Joining(wait, next) =>
      s.stop && !s.running && s.policy == PolicyOf(wait) && |s.workers| == s.numWorkers && TakenSince(s) && ExitedBelow(s, next)
    case Joined(wait) =>
      s.stop && !s.running && s.policy == PolicyOf(wait) && |s.workers| == s.numWorkers && TakenSince(s) && ExitedBelow(s, |s.workers|)
    case Resetting(wait) => s.stop && !s.running && s.policy == PolicyOf(wait) && s.workers == []
    case Restoring => !s.stop && !s.running && s.policy == WaitForQueueCompletion && s.workers == []
    case Starting => !s.stop && !s.running && s.policy == StopAfterCurrentTask && s.workers == []
  }

  /** What was queued when stop was requested is still there unless a worker took it. */
  ghost predicate TakenSince(s: State) {
    s.mark <= |s.taken| + s.queued && (s.workers == [] ==> |s.taken| + s.queued == s.mark)
  }

  function PolicyOf(wait: bool): Policy {
    if wait then WaitForQueueCompletion else StopAfterCurrentTask
  }

  ghost predicate InOrder(s: State) {
    s.accepted == s.taken + s.tasks && s.mark <= |s.accepted|
  }

  ghost predicate Inv(s: State) {
    && Exclusive(s) && Accounted(s) && WorkersOk(s) && ControllerOk(s) && InOrder(s) && !s.frontOfEmpty
  }

  lemma InitialInv(numWorkers: nat)
    ensures Inv(Initial(numWorkers))
  {
  }

  // ---------------------------------------------------------------- what one worker's move keeps

  /** A move of worker `w` between places where it holds no task leaves the accounts alone. */
  lemma MoveAccounted(s: State, s': State, w: nat, to: Worker)
    requires Accounted(s) && w < |s.workers| && !s.workers[w].Running? && !to.Running?
    requires s'.workers == s.workers[w := to] && s'.taken == s.taken && s'.finished == s.finished
    ensures Accounted(s')
  {
    forall n: nat | n < |s'.taken| ensures HeldOrFinished(s', n) {
      assert HeldOrFinished(s, n);
      if n !in s.finished {
        var x :| InHand(s, x, n);
        assert InHand(s', x, n);
      }
    }
    forall x, n: nat | InHand(s', x, n) ensures InHand(s, x, n) {}
  }

  lemma TakeAccounted(s: State, s': State, w: nat, work: Work)
    requires Accounted(s) && w < |s.workers| && !s.workers[w].Running?
    requires s'.workers == s.workers[w := Running(|s.taken|, work)] && s'.taken == s.taken + [work] && s'.finished == s.finished
    ensures Accounted(s')
  {
    forall n: nat | n < |s'.taken| ensures HeldOrFinished(s', n) {
      if n == |s.taken| {
        assert InHand(s', w, n);
      } else {
        assert HeldOrFinished(s, n);
        if n !in s.finished {
          var x :| InHand(s, x, n);
          assert InHand(s', x, n);
        }
      }
    }
    forall x, n: nat | InHand(s', x, n) ensures if x == w then n == |s.taken| else InHand(s, x, n) {}
  }

  lemma FinishAccounted(s: State, s': State, w: nat)
    requires Accounted(s) && w < |s.workers| && s.workers[w].Running?
    requires s'.workers == s.workers[w := Waiting] && s'.taken == s.taken && s'.finished == s.finished + {s.workers[w].number}
    ensures Accounted(s')
  {
    assert InHand(s, w, s.workers[w].number);
    forall n: nat | n < |s'.taken| ensures HeldOrFinished(s', n) {
      assert HeldOrFinished(s, n);
      if n !in s'.finished {
        var x :| InHand(s, x, n);
        assert InHand(s', x, n);
      }
    }
    forall x, n: nat | InHand(s', x, n) ensures InHand(s, x, n) && x != w {}
  }

  lemma MoveExclusive(s: State, s': State, w: nat, to: Worker)
    requires Exclusive(s) && w < |s.workers| && s'.workers == s.workers[w := to]
    requires HoldsMutex(s.workers[w]) || (s.owner == None && HoldsMutex(to)) || (!HoldsMutex(to) && s'.owner == s.owner)
    requires if HoldsMutex(to) then s'.owner == Some(w) else HoldsMutex(s.workers[w]) ==> s'.owner == None
    ensures Exclusive(s')
  {
  }

  /** The other workers see the same flags, and tasks that are gone only if one of them had the mutex. */
  lemma MoveWorkersOk(s: State, s': State, w: nat, to: Worker)
    requires WorkersOk(s) && Exclusive(s) && w < |s.workers| && s'.workers == s.workers[w := to] && ChecksHold(s', to)
    requires s'.stop == s.stop && s'.policy == s.policy && s'.mark == s.mark && |s.taken| <= |s'.taken|
    requires s'.tasks == s.tasks || s.owner == Some(w)
    ensures WorkersOk(s')
  {
    forall x | 0 <= x < |s'.workers| ensures ChecksHold(s', s'.workers[x]) {
      if x != w { assert ChecksHold(s, s.workers[x]); }
    }
  }

  lemma MoveControllerOk(s: State, s': State, w: nat, to: Worker)
    requires ControllerOk(s) && w < |s.workers| && s'.workers == s.workers[w := to] && !s.workers[w].Exited?
    requires s'.controller == s.controller && s'.stop == s.stop && s'.policy == s.policy && s'.running == s.running && s'.numWorkers == s.numWorkers
    requires s'.mark == s.mark && s'.queued == s.queued && |s.taken| <= |s'.taken|
    ensures ControllerOk(s')
  {
  }

  lemma WorkerKeepsInv(s: State, a: Action)
    requires a.Lock? || a.Check? || a.ReadStop? || a.Decide? || a.Take? || a.Finish?
    requires Inv(s) && WorkerStep(s, a).Some?
    ensures Inv(WorkerStep(s, a).value)
  {
    var s', w := WorkerStep(s, a).value, a.w;
    assert ChecksHold(s, s.workers[w]);
    if HoldsMutex(s.workers[w]) { assert s.owner == Some(w); }
    var to := s'.workers[w];
    hide Exclusive, Accounted, WorkersOk, ControllerOk;
    if a.Finish? {
      FinishAccounted(s, s', w);
    } else if a.Take? {
      assert s.tasks != [];
      TakeAccounted(s, s', w, s.tasks[0]);
      assert s.taken + s.tasks == s'.taken + s'.tasks;
    } else {
      MoveAccounted(s, s', w, to);
    }
    MoveExclusive(s, s', w, to);
    MoveWorkersOk(s, s', w, to);
    MoveControllerOk(s, s', w, to);
  }

  // ---------------------------------------------------------------- what the other threads keep

  lemma SameWorkersAccounted(s: State, s': State)
    requires Accounted(s) && s'.taken == s.taken && s'.finished == s.finished && s'.workers == s.workers
    ensures Accounted(s')
  {
    forall n: nat | n < |s'.taken| ensures HeldOrFinished(s', n) {
      assert HeldOrFinished(s, n);
      if n !in s.finished {
        var x :| InHand(s, x, n);
        assert InHand(s', x, n);
      }
    }
    forall x, n: nat | InHand(s', x, n) ensures InHand(s, x, n) {}
  }

  lemma ProducerKeepsInv(s: State, a: Action)
    requires a.Offer? || a.Push?
    requires Inv(s) && ProducerStep(s, a).Some?
    ensures Inv(ProducerStep(s, a).value)
  {
    var s' := ProducerStep(s, a).value;
    SameWorkersAccounted(s, s');
    hide Accounted;
    if a.Push? {
      assert s'.accepted == s'.taken + s'.tasks;
      forall w | 0 <= w < |s'.workers| ensures ChecksHold(s', s'.workers[w]) { assert ChecksHold(s, s.workers[w]); }
    } else {
      forall w | 0 <= w < |s'.workers| ensures ChecksHold(s', s'.workers[w]) { assert ChecksHold(s, s.workers[w]); }
    }
  }

  lemma SpawnAccounted(s: State, s': State)
    requires Accounted(s) && s'.taken == s.taken && s'.finished == s.finished && s'.workers == s.workers + [Waiting]
    ensures Accounted(s')
  {
    forall n: nat | n < |s'.taken| ensures HeldOrFinished(s', n) {
      assert HeldOrFinished(s, n);
      if n !in s.finished {
        var x :| InHand(s, x, n);
        assert InHand(s', x, n);
      }
    }
    forall x, n: nat | InHand(s', x, n) ensures InHand(s, x, n) {}
  }

  /** Workers that have all returned hold nothing. */
  lemma ExitedAccounted(s: State, s': State)
    requires Accounted(s) && ExitedBelow(s, |s.workers|) && s'.taken == s.taken && s'.finished == s.finished && s'.workers == []
    ensures Accounted(s') && forall n: nat :: n < |s.taken| ==> n in s.finished
  {
    forall n: nat | n < |s.taken| ensures n in s.finished { assert HeldOrFinished(s, n); }
  }

  lemma SpawnKeepsInv(s: State, s': State)
    requires Inv(s) && s.controller.Spawning? && s.controller.left > 0
    requires s' == s.(workers := s.workers + [Waiting], controller := Spawning(s.controller.left - 1))
    ensures Inv(s')
  {
    SpawnAccounted(s, s');
    hide Accounted;
    forall w | 0 <= w < |s'.workers| ensures ChecksHold(s', s'.workers[w]) {
      if w < |s.workers| { assert ChecksHold(s, s.workers[w]); }
    }
  }

  lemma JoinKeepsInv(s: State, s': State)
    requires Inv(s) && s.controller.Joining? && ControllerStep(s, Join) == Some(s')
    ensures Inv(s')
  {
    SameWorkersAccounted(s, s');
    hide Accounted;
    SameWorkersOk(s, s');
  }

  lemma SameWorkersOk(s: State, s': State)
    requires WorkersOk(s) && s'.workers == s.workers && s'.tasks == s.tasks && s'.taken == s.taken
    requires s'.stop == s.stop && s'.policy == s.policy && s'.mark == s.mark
    ensures WorkersOk(s')
  {
    forall w | 0 <= w < |s'.workers| ensures ChecksHold(s', s'.workers[w]) { assert ChecksHold(s, s.workers[w]); }
  }

  /** While stop has not been requested no worker has returned, so its policy and mark may change. */
  lemma NotStoppedWorkersOk(s: State, s': State)
    requires WorkersOk(s) && !s.stop && s'.workers == s.workers && s'.tasks == s.tasks && s'.taken == s.taken
    ensures WorkersOk(s')
  {
    forall w | 0 <= w < |s'.workers| ensures ChecksHold(s', s'.workers[w]) { assert ChecksHold(s, s.workers[w]); }
  }

  lemma ControllerKeepsInv(s: State, a: Action)
    requires a.SetNumWorkers? || a.Start? || a.Spawn? || a.Stop? || a.Wait? || a.SetFlag? || a.ClearRunning?
             || a.Join? || a.ClearWorkers? || a.ResetFlag? || a.RestorePolicy?
    requires Inv(s) && ControllerStep(s, a).Some?
    ensures Inv(ControllerStep(s, a).value)
  {
    var s' := ControllerStep(s, a).value;
    if a.ClearWorkers? {
      ExitedAccounted(s, s');
    } else if a.Spawn? && s.controller.left > 0 {
      SpawnKeepsInv(s, s');
    } else if a.Join? {
      JoinKeepsInv(s, s');
    } else {
      SameWorkersAccounted(s, s');
      hide Accounted;
      if !s.stop { NotStoppedWorkersOk(s, s'); } else if s'.stop { SameWorkersOk(s, s'); }
    }
  }

  lemma StepKeepsInv(s: State, a: Action)
    requires Inv(s) && Step(s, a).Some?
    ensures Inv(Step(s, a).value)
  {
    hide Inv, WorkerStep, ControllerStep, ProducerStep;
    if a.Lock? || a.Check? || a.ReadStop? || a.Decide? || a.Take? || a.Finish? {
      WorkerKeepsInv(s, a);
    } else if a.Offer? || a.Push? {
      ProducerKeepsInv(s, a);
    } else {
      ControllerKeepsInv(s, a);
    }
  }

  lemma {:induction false} RunKeepsInv(numWorkers: nat, run: seq<Action>)
    requires Run(Initial(numWorkers), run).Some?
    ensures Inv(Run(Initial(numWorkers), run).value)
  {
    hide Inv;
    if run == [] {
      InitialInv(numWorkers);
    } else {
      RunKeepsInv(numWorkers, run[..|run| - 1]);
      StepKeepsInv(Run(Initial(numWorkers), run[..|run| - 1]).value, run[|run| - 1]);
    }
  }

  // ---------------------------------------------------------------- what holds in every run

  /** Tasks are taken in the order in which they were accepted, and none is lost or doubled: each is
      queued, finished, or in the hands of exactly one worker. */
  lemma TasksAccountedFor(numWorkers: nat, run: seq<Action>, n: nat)
    requires Run(Initial(numWorkers), run).Some?
    ensures var s := Run(Initial(numWorkers), run).value;
            && s.accepted == s.taken + s.tasks
            && (n in s.finished ==> n < |s.taken|)
            && (n < |s.taken| ==> (n !in s.finished <==> exists w :: InHand(s, w, n)))
            && (forall w, x :: InHand(s, w, n) && InHand(s, x, n) ==> w == x)
            && (forall w :: InHand(s, w, n) ==> n < |s.taken| && s.workers[w].work == s.accepted[n])
  {
    RunKeepsInv(numWorkers, run);
    var s := Run(Initial(numWorkers), run).value;
    if n < |s.taken| { assert HeldOrFinished(s, n); }
  }

  /** A worker that is about to take a task finds one, and no two threads are in the critical section. */
  lemma FrontNeverEmpty(numWorkers: nat, run: seq<Action>)
    requires Run(Initial(numWorkers), run).Some?
    ensures var s := Run(Initial(numWorkers), run).value;
            && !s.frontOfEmpty
            && (forall w: nat :: At(s, w, Taking) ==> s.tasks != [])
            && (forall w: nat, x: nat :: w < |s.workers| && x < |s.workers| && HoldsMutex(s.workers[w]) && HoldsMutex(s.workers[x]) ==> w == x)
  {
    RunKeepsInv(numWorkers, run);
    var s := Run(Initial(numWorkers), run).value;
    forall w: nat | At(s, w, Taking) ensures s.tasks != [] { assert ChecksHold(s, s.workers[w]); }
  }

  /** When stop has joined the workers nothing is in anyone's hands; and if it was called by
      wait_for_completion, all that had been accepted when the flag was set has finished exactly when
      there is a worker or the queue was empty at that moment. */
  lemma JoinedMeansDone(numWorkers: nat, run: seq<Action>)
    requires Run(Initial(numWorkers), run).Some? && Run(Initial(numWorkers), run).value.controller.Joined?
    ensures var s := Run(Initial(numWorkers), run).value;
            && (forall n: nat :: n < |s.taken| <==> n in s.finished)
            && (s.controller.wait ==>
                  ((forall n: nat :: n < s.mark ==> n in s.finished) <==> |s.workers| > 0 || s.queued == 0))
  {
    RunKeepsInv(numWorkers, run);
    var s := Run(Initial(numWorkers), run).value;
    ExitedAccounted(s, s.(workers := []));
    if |s.workers| > 0 { assert ChecksHold(s, s.workers[0]); }
    assert |s.taken| !in s.finished;
  }

  /** Nothing accepted, taken or finished is ever taken back. */
  ghost predicate Extends(s: State, s': State) {
    s.accepted <= s'.accepted && s.taken <= s'.taken && s.finished <= s'.finished
  }

  lemma StepExtends(s: State, a: Action)
    requires Step(s, a).Some?
    ensures Extends(s, Step(s, a).value)
  {
  }

  lemma {:induction false} RunExtends(s: State, before: seq<Action>, after: seq<Action>)
    requires Run(s, before + after).Some?
    ensures Run(s, before).Some? && Extends(Run(s, before).value, Run(s, before + after).value)
    decreases |after|
  {
    var run := before + after;
    if after == [] {
      assert run == before;
    } else {
      assert run[..|run| - 1] == before + after[..|after| - 1];
      RunExtends(s, before, after[..|after| - 1]);
      StepExtends(Run(s, run[..|run| - 1]).value, run[|run| - 1]);
    }
  }

  /** What wait_for_completion waited for stays finished, whatever happens afterwards. */
  lemma CompletionLasts(numWorkers: nat, before: seq<Action>, after: seq<Action>, n: nat)
    requires Run(Initial(numWorkers), before + after).Some? && Run(Initial(numWorkers), before).Some?
    requires var s := Run(Initial(numWorkers), before).value;
             s.controller == Joined(true) && |s.workers| > 0 && n < s.mark
    ensures n in Run(Initial(numWorkers), before + after).value.finished
  {
    hide Run;
    JoinedMeansDone(numWorkers, before);
    RunExtends(Initial(numWorkers), before, after);
  }

  // ---------------------------------------------------------------- what the actions of a run alone tell

  /** Whether the stop flag is set: by the last of its two writes. */
  function StopSet(run: seq<Action>): bool {
    if run == [] then false
    else match run[|run| - 1]
      case SetFlag => true
      case ResetFlag => false
      case _ => StopSet(run[..|run| - 1])
  }

  /** The work that a pushing thread has been let in with and has not queued yet. */
  function Promised(run: seq<Action>, p: nat): (r: Option<Work>) {
    if run == [] then None
    else
      var before, a := run[..|run| - 1], run[|run| - 1];
      if a.Offer? && a.producer == p && !StopSet(before) then Some(a.work)
      else if a == Push(p) then None
      else Promised(before, p)
  }

  /** All works queued, in the order of the pushes: each push queues what its thread came with. */
  function Queued(run: seq<Action>): (r: seq<Work>) {
    if run == [] then []
    else
      var before, a := run[..|run| - 1], run[|run| - 1];
      if a.Push? && Promised(before, a.producer).Some? then Queued(before) + [Promised(before, a.producer).value]
      else Queued(before)
  }

  /** The works that thread `p` offered while the flag was clear. */
  function LetIn(run: seq<Action>, p: nat): (r: seq<Work>) {
    if run == [] then []
    else
      var before, a := run[..|run| - 1], run[|run| - 1];
      if a.Offer? && a.producer == p && !StopSet(before) then LetIn(before, p) + [a.work] else LetIn(before, p)
  }

  /** The works that thread `p` queued. */
  function QueuedBy(run: seq<Action>, p: nat): (r: seq<Work>) {
    if run == [] then []
    else
      var before, a := run[..|run| - 1], run[|run| - 1];
      if a == Push(p) && Promised(before, p).Some? then QueuedBy(before, p) + [Promised(before, p).value] else QueuedBy(before, p)
  }

  ghost predicate Told(s: State, run: seq<Action>) {
    && s.stop == StopSet(run) && s.accepted == Queued(run)
    && (forall p :: p in s.pending <==> Promised(run, p).Some?)
    && (forall p :: p in s.pending ==> Promised(run, p) == Some(s.pending[p]))
  }

  /** The state remembers exactly what the actions of the run say was let in and queued. */
  lemma {:induction false} HistoryTold(numWorkers: nat, run: seq<Action>)
    requires Run(Initial(numWorkers), run).Some?
    ensures Told(Run(Initial(numWorkers), run).value, run)
  {
    if run != [] {
      HistoryTold(numWorkers, run[..|run| - 1]);
      TellStep(Run(Initial(numWorkers), run[..|run| - 1]).value, run);
    }
  }

  lemma TellStep(s: State, run: seq<Action>)
    requires run != [] && Told(s, run[..|run| - 1]) && Step(s, run[|run| - 1]).Some?
    ensures Told(Step(s, run[|run| - 1]).value, run)
  {
    var before, a := run[..|run| - 1], run[|run| - 1];
    var s' := Step(s, a).value;
    if a.Offer? || a.Push? {
      forall p ensures Promised(run, p) == (if p in s'.pending then Some(s'.pending[p]) else None) {
        assert Promised(before, p) == (if p in s.pending then Some(s.pending[p]) else None);
      }
    } else {
      OtherKeeps(s, a);
      assert Queued(run) == Queued(before);
      forall p ensures Promised(run, p) == Promised(before, p) {}
    }
  }

  /** Only pushing threads change what is accepted or promised. */
  lemma OtherKeeps(s: State, a: Action)
    requires !a.Offer? && !a.Push? && Step(s, a).Some?
    ensures var s' := Step(s, a).value;
            && s'.accepted == s.accepted && s'.pending == s.pending
            && s'.stop == (if a.SetFlag? then true else if a.ResetFlag? then false else s.stop)
  {
    hide WorkerStep, ControllerStep;
    if a.Lock? || a.Check? || a.ReadStop? || a.Decide? || a.Take? || a.Finish? { WorkerLeaves(s, a); } else { ControllerLeaves(s, a); }
  }

  lemma WorkerLeaves(s: State, a: Action)
    requires a.Lock? || a.Check? || a.ReadStop? || a.Decide? || a.Take? || a.Finish?
    requires WorkerStep(s, a).Some?
    ensures var s' := WorkerStep(s, a).value; s'.accepted == s.accepted && s'.pending == s.pending && s'.stop == s.stop
  {
  }

  lemma ControllerLeaves(s: State, a: Action)
    requires a.SetNumWorkers? || a.Start? || a.Spawn? || a.Stop? || a.Wait? || a.SetFlag? || a.ClearRunning?
             || a.Join? || a.ClearWorkers? || a.ResetFlag? || a.RestorePolicy?
    requires ControllerStep(s, a).Some?
    ensures var s' := ControllerStep(s, a).value;
            && s'.accepted == s.accepted && s'.pending == s.pending
            && s'.stop == (if a.SetFlag? then true else if a.ResetFlag? then false else s.stop)
  {
  }

  /** Nothing that was let in is dropped or doubled: a thread has queued all of it, in its order, except the
      one work it may still be about to queue. */
  lemma {:induction false} OffersKept(numWorkers: nat, run: seq<Action>, p: nat)
    requires Run(Initial(numWorkers), run).Some?
    ensures LetIn(run, p) == QueuedBy(run, p) + (if Promised(run, p).Some? then [Promised(run, p).value] else [])
  {
    if run != [] {
      var before, a := run[..|run| - 1], run[|run| - 1];
      OffersKept(numWorkers, before, p);
      HistoryTold(numWorkers, before);
    }
  }

  /** A push that is possible puts its work at the end of the queue. */
  lemma PushAppends(s: State, p: nat)
    requires p in s.pending && s.owner == None
    ensures var s' := Step(s, Push(p));
            s'.Some? && s'.value.tasks == s.tasks + [s.pending[p]] && s'.value.accepted == s.accepted + [s.pending[p]]
            && s'.value.taken == s.taken && s'.value.workers == s.workers && s'.value.pending == s.pending - {p}
  {
  }

  // ---------------------------------------------------------------- a plain stop leaves the queue alone

  /** Worker `w` has seen the flag of a plain stop. */
  ghost predicate Leaving(s: State, w: nat) {
    && w < |s.workers| && (s.workers[w].Deciding? || s.workers[w].Exited?) && s.stop && s.policy == StopAfterCurrentTask
    && (s.controller.Clearing? || s.controller.Joining? || s.controller.Joined?)
  }

  lemma LeavingStays(s: State, a: Action, w: nat)
    requires Leaving(s, w) && Step(s, a).Some? && !a.ClearWorkers?
    ensures Leaving(Step(s, a).value, w) && a != Take(w)
  {
  }

  /** A worker that reads the flag of a plain stop takes no task any more. */
  lemma {:induction false} StopTakesNothing(numWorkers: nat, before: seq<Action>, w: nat, after: seq<Action>)
    requires Run(Initial(numWorkers), before + [ReadStop(w)] + after).Some? && ClearWorkers !in after
    requires Run(Initial(numWorkers), before).Some?
    requires var s := Run(Initial(numWorkers), before).value; s.stop && s.policy == StopAfterCurrentTask
    ensures Take(w) !in after && Leaving(Run(Initial(numWorkers), before + [ReadStop(w)] + after).value, w)
    decreases |after|
  {
    var run := before + [ReadStop(w)] + after;
    if after == [] {
      assert run[..|run| - 1] == before;
      RunKeepsInv(numWorkers, before);
    } else {
      var last := after[|after| - 1];
      assert run[..|run| - 1] == before + [ReadStop(w)] + after[..|after| - 1];
      assert last in after && forall a :: a in after[..|after| - 1] ==> a in after;
      StopTakesNothing(numWorkers, before, w, after[..|after| - 1]);
      LeavingStays(Run(Initial(numWorkers), run[..|run| - 1]).value, last, w);
      assert forall a :: a in after ==> a in after[..|after| - 1] || a == last;
    }
  }

  // ---------------------------------------------------------------- no deadlock

  ghost predicate Reaches(s: State, s': State) {
    exists run :: Run(s, run) == Some(s')
  }

  lemma {:induction false} RunJoin(s: State, first: seq<Action>, second: seq<Action>)
    requires Run(s, first).Some?
    ensures Run(s, first + second) == Run(Run(s, first).value, second)
    decreases |second|
  {
    hide Step;
    var run := first + second;
    if second == [] {
      assert run == first;
    } else {
      assert run[..|run| - 1] == first + second[..|second| - 1];
      RunJoin(s, first, second[..|second| - 1]);
    }
  }

  lemma ReachesStays(s: State)
    ensures Reaches(s, s)
  {
    assert Run(s, []) == Some(s);
  }

  lemma ReachesJoin(s: State, m: State, s': State)
    requires Reaches(s, m) && Reaches(m, s')
    ensures Reaches(s, s')
  {
    var first :| Run(s, first) == Some(m);
    var second :| Run(m, second) == Some(s');
    RunJoin(s, first, second);
  }

  /** One step at the front of a run. */
  lemma ReachesBy(s: State, a: Action, s': State)
    requires Step(s, a).Some? && Reaches(Step(s, a).value, s')
    ensures Reaches(s, s')
  {
    var m := Step(s, a).value;
    assert [a][..0] == [];
    assert Run(s, []) == Some(s);
    assert Run(s, [a]) == Some(m);
    ReachesJoin(s, m, s');
  }

  /** The pool runs and nobody is stopping it. */
  ghost predicate Working(s: State) {
    Inv(s) && s.controller == Idle && s.running && |s.workers| > 0
  }

  /** How far the holder of the mutex is from giving it back. */
  function Stage(s: State): nat {
    if s.owner.None? || s.owner.value >= |s.workers| then 4
    else match s.workers[s.owner.value]
      case Holding => 3
      case Checked => 2
      case _ => 1
  }

  /** All tasks done, every worker waiting and the mutex free. */
  ghost predicate Quiet(s: State) {
    && s.tasks == [] && s.owner == None && (forall w: nat :: w < |s.workers| ==> s.workers[w] == Waiting)
    && (forall n: nat :: n < |s.taken| <==> n in s.finished)
  }

  ghost predicate SameBesidesTasks(s: State, s': State) {
    && s'.controller == s.controller && s'.running == s.running && s'.stop == s.stop && s'.policy == s.policy
    && s'.numWorkers == s.numWorkers && |s'.workers| == |s.workers| && s'.accepted == s.accepted && s'.pending == s.pending
  }

  lemma WorkingStep(s: State, a: Action)
    requires Working(s) && (a.Lock? || a.Check? || a.ReadStop? || a.Take? || a.Finish?) && Step(s, a).Some?
    ensures Working(Step(s, a).value) && SameBesidesTasks(s, Step(s, a).value)
  {
    WorkerKeepsInv(s, a);
    hide Inv;
  }

  function RunningCount(workers: seq<Worker>): (n: nat) {
    if workers == [] then 0 else RunningCount(workers[..|workers| - 1]) + if workers[|workers| - 1].Running? then 1 else 0
  }

  lemma {:induction false} CountMoved(workers: seq<Worker>, w: nat, to: Worker)
    requires w < |workers| && !to.Running?
    ensures RunningCount(workers[w := to]) == RunningCount(workers) - if workers[w].Running? then 1 else 0
  {
    var n := |workers| - 1;
    if w == n {
      assert workers[w := to][..n] == workers[..n];
    } else {
      assert workers[w := to][..n] == workers[..n][w := to];
      CountMoved(workers[..n], w, to);
    }
  }

  ghost predicate Rests(s: State, s': State) {
    Reaches(s, s') && Working(s') && Quiet(s') && SameBesidesTasks(s, s')
  }

  lemma RestsBy(s: State, a: Action, s': State)
    requires Step(s, a).Some? && Rests(Step(s, a).value, s') && SameBesidesTasks(s, Step(s, a).value)
    ensures Rests(s, s')
  {
    hide Step, Working, Quiet;
    ReachesBy(s, a, s');
  }

  /** The workers of a working pool, left to themselves, can finish every task and come to rest. */
  lemma {:induction false} Settles(s: State)
    requires Working(s)
    ensures exists s' :: Rests(s, s')
    decreases |s.tasks|, RunningCount(s.workers), Stage(s)
  {
    NoneLeft(s);
    if w: nat :| w < |s.workers| && s.workers[w].Running? {
      CountMoved(s.workers, w, Waiting);
      SettlesAfter(s, Finish(w));
    } else if s.owner.Some? {
      var w := s.owner.value;
      assert HoldsMutex(s.workers[w]) && ChecksHold(s, s.workers[w]);
      if s.workers[w].Taking? {
        SettlesAfter(s, Take(w));
      } else if s.workers[w].Checked? {
        CountMoved(s.workers, w, Taking);
        SettlesAfter(s, ReadStop(w));
      } else if s.tasks != [] {
        CountMoved(s.workers, w, Checked);
        SettlesAfter(s, Check(w));
      } else {
        LastCheck(s, w);
      }
    } else if s.tasks == [] {
      RestsNow(s);
    } else {
      CountMoved(s.workers, 0, Holding);
      SettlesAfter(s, Lock(0));
    }
  }

  lemma SettlesAfter(s: State, a: Action)
    requires Working(s) && (a.Lock? || a.Check? || a.ReadStop? || a.Take? || a.Finish?) && Step(s, a).Some?
    requires var m := Step(s, a).value;
             || |m.tasks| < |s.tasks|
             || (m.tasks == s.tasks && (RunningCount(m.workers) < RunningCount(s.workers)
                                        || (RunningCount(m.workers) == RunningCount(s.workers) && Stage(m) < Stage(s))))
    ensures exists s' :: Rests(s, s')
    decreases |s.tasks|, RunningCount(s.workers), Stage(s), 0
  {
    var m := Step(s, a).value;
    WorkingStep(s, a);
    Settles(m);
    var s' :| Rests(m, s');
    RestsBy(s, a, s');
  }

  /** No worker has returned while nobody stops the pool, and one that neither runs nor holds the mutex waits. */
  lemma NoneLeft(s: State)
    requires Working(s)
    ensures !s.stop && forall w: nat :: w < |s.workers| ==>
              s.workers[w].Running? || s.workers[w].Waiting? || s.owner == Some(w)
  {
    forall w: nat | w < |s.workers| ensures s.workers[w].Running? || s.workers[w].Waiting? || s.owner == Some(w) {
      assert ChecksHold(s, s.workers[w]);
    }
  }

  lemma RestsNow(s: State)
    requires Working(s) && s.tasks == [] && s.owner == None
    requires forall w: nat :: w < |s.workers| ==> s.workers[w] == Waiting
    ensures Rests(s, s)
  {
    ReachesStays(s);
    forall n: nat | n < |s.taken| ensures n in s.finished { assert HeldOrFinished(s, n); }
  }

  /** The worker that finds the queue empty gives the mutex back. */
  lemma LastCheck(s: State, w: nat)
    requires Working(s) && s.tasks == [] && s.owner == Some(w) && w < |s.workers| && s.workers[w] == Holding
    requires forall x: nat :: x < |s.workers| && x != w ==> s.workers[x] == Waiting
    ensures exists s' :: Rests(s, s')
  {
    var m := Step(s, Check(w)).value;
    WorkingStep(s, Check(w));
    RestsNow(m);
    RestsBy(s, Check(w), m);
  }

  // ---------------------------------------------------------------- a wait that ends

  /** The first `k` workers have returned and the others wait. */
  ghost predicate ReturnedBelow(s: State, k: nat) {
    && s.stop && (s.tasks == [] || s.policy == StopAfterCurrentTask) && s.owner == None
    && forall w: nat :: w < |s.workers| ==> s.workers[w] == if w < k then Exited else Waiting
  }

  lemma ReturnOne(s: State, k: nat)
    requires ReturnedBelow(s, k) && k < |s.workers|
    ensures Reaches(s, s.(workers := s.workers[k := Exited]))
  {
    hide ControllerStep, ProducerStep;
    var s1 := Move(s, k, Holding).(owner := Some(k));
    var s2 := Move(s1, k, Checked);
    var s3 := Move(s2, k, Deciding);
    var s4 := Move(s3, k, Exited).(owner := None);
    assert s4 == s.(workers := s.workers[k := Exited]);
    ReachesStays(s4);
    ReachesBy(s3, Decide(k), s4);
    ReachesBy(s2, ReadStop(k), s4);
    ReachesBy(s1, Check(k), s4);
    ReachesBy(s, Lock(k), s4);
  }

  lemma {:induction false} ReturnAll(s: State, k: nat)
    requires ReturnedBelow(s, k) && k <= |s.workers|
    ensures Reaches(s, s.(workers := seq(|s.workers|, i => Exited)))
    decreases |s.workers| - k
  {
    if k == |s.workers| {
      assert s.workers == seq(|s.workers|, i => Exited);
      ReachesStays(s);
    } else {
      var m := s.(workers := s.workers[k := Exited]);
      ReturnOne(s, k);
      ReturnAll(m, k + 1);
      ReachesJoin(s, m, s.(workers := seq(|s.workers|, i => Exited)));
    }
  }

  lemma {:induction false} JoinAll(s: State, k: nat, wait: bool)
    requires s.controller == Joining(wait, k) && k <= |s.workers| && forall w: nat :: w < |s.workers| ==> s.workers[w] == Exited
    ensures Reaches(s, s.(controller := Joined(wait)))
    decreases |s.workers| - k
  {
    hide WorkerStep, ProducerStep;
    var end := s.(controller := Joined(wait));
    if k == |s.workers| {
      ReachesStays(end);
    } else {
      JoinAll(s.(controller := Joining(wait, k + 1)), k + 1, wait);
    }
    ReachesBy(s, Join, end);
  }

  lemma {:induction false} SpawnAll(s: State, left: nat)
    requires s.controller == Spawning(left) && forall w: nat :: w < |s.workers| ==> s.workers[w] == Waiting
    ensures Reaches(s, s.(workers := seq(|s.workers| + left, i => Waiting), controller := Idle))
    decreases left
  {
    hide WorkerStep, ProducerStep;
    var end := s.(workers := seq(|s.workers| + left, i => Waiting), controller := Idle);
    if left == 0 {
      assert s.workers == end.workers;
      ReachesStays(end);
    } else {
      SpawnAll(s.(workers := s.workers + [Waiting], controller := Spawning(left - 1)), left - 1);
    }
    ReachesBy(s, Spawn, end);
  }

  ghost function Flagged(s: State): State {
    s.(policy := WaitForQueueCompletion, controller := Joining(true, 0), stop := true, running := false,
       mark := |s.accepted|, queued := |s.tasks|)
  }

  /** The first steps of wait_for_completion. */
  lemma WaitFlags(s: State)
    requires s.controller == Idle && s.running
    ensures Step(s, Wait).Some? && Step(s, Wait).value.controller == Flagging(true)
    ensures Reaches(Step(s, Wait).value, Flagged(s))
  {
    hide WorkerStep, ProducerStep;
    var s1 := s.(policy := WaitForQueueCompletion, controller := Flagging(true));
    var s2 := s1.(stop := true, mark := |s.accepted|, queued := |s.tasks|, controller := Clearing(true));
    ReachesStays(Flagged(s));
    ReachesBy(s2, ClearRunning, Flagged(s));
    ReachesBy(s1, SetFlag, Flagged(s));
  }

  /** Its last steps before the pool is started again. */
  lemma WaitResets(s: State, end: State)
    requires s.controller == Joined(true)
    requires Reaches(s.(workers := [], controller := Starting, stop := false, policy := StopAfterCurrentTask), end)
    ensures Reaches(s, end)
  {
    hide WorkerStep, ProducerStep;
    var s1 := s.(workers := [], controller := Resetting(true));
    var s2 := s1.(stop := false, controller := Restoring);
    ReachesBy(s2, RestorePolicy, end);
    ReachesBy(s1, ResetFlag, end);
    ReachesBy(s, ClearWorkers, end);
  }

  lemma Restarts(s: State)
    requires s.controller == Starting && !s.running && s.workers == []
    ensures Reaches(s, s.(workers := seq(s.numWorkers, i => Waiting), controller := Idle, running := true))
  {
    hide WorkerStep, ProducerStep;
    var s1 := s.(running := true, controller := Spawning(s.numWorkers));
    SpawnAll(s1, s.numWorkers);
    ReachesBy(s, Start, s.(workers := seq(s.numWorkers, i => Waiting), controller := Idle, running := true));
  }

  /** wait_for_completion, called on a pool at rest, can return and leaves it as it was. */
  lemma WaitReturns(s: State)
    requires Working(s) && Quiet(s)
    ensures Step(s, Wait).Some? && Step(s, Wait).value.controller == Flagging(true)
    ensures Reaches(Step(s, Wait).value, s.(mark := |s.accepted|, queued := 0))
  {
    hide Step, Reaches;
    var f := Flagged(s);
    var exited := seq(|s.workers|, i => Exited);
    var cleared := f.(workers := [], controller := Starting, stop := false, policy := StopAfterCurrentTask);
    var end := s.(mark := |s.accepted|, queued := 0);
    assert s.workers == seq(s.numWorkers, i => Waiting);
    WaitFlags(s);
    ReturnAll(f, 0);
    JoinAll(f.(workers := exited), 0, true);
    Restarts(cleared);
    WaitResets(f.(workers := exited, controller := Joined(true)), end);
    ReachesJoin(f.(workers := exited), f.(workers := exited, controller := Joined(true)), end);
    ReachesJoin(f, f.(workers := exited), end);
    ReachesJoin(Step(s, Wait).value, f, end);
  }

  /** A plain stop of a pool whose workers wait can return too: the workers are gone and the queue is as it was. */
  lemma StopReturns(s: State)
    requires Working(s) && s.owner == None && forall w: nat :: w < |s.workers| ==> s.workers[w] == Waiting
    ensures Step(s, Stop).Some? && Step(s, Stop).value.controller == Flagging(false)
    ensures Reaches(Step(s, Stop).value, s.(workers := [], running := false, mark := |s.accepted|, queued := |s.tasks|))
  {
    hide Step, Reaches, Inv;
    var f := PlainFlagged(s);
    var exited := seq(|s.workers|, i => Exited);
    var end := s.(workers := [], running := false, mark := |s.accepted|, queued := |s.tasks|);
    PlainFlags(s);
    ReturnAll(f, 0);
    JoinAll(f.(workers := exited), 0, false);
    PlainResets(f.(workers := exited, controller := Joined(false)));
    ReachesJoin(f.(workers := exited), f.(workers := exited, controller := Joined(false)), end);
    ReachesJoin(f, f.(workers := exited), end);
    ReachesJoin(Step(s, Stop).value, f, end);
  }

  ghost function PlainFlagged(s: State): State {
    s.(controller := Joining(false, 0), stop := true, running := false, mark := |s.accepted|, queued := |s.tasks|)
  }

  lemma PlainFlags(s: State)
    requires Working(s)
    ensures s.policy == StopAfterCurrentTask && !s.stop
    ensures Step(s, Stop).Some? && Step(s, Stop).value.controller == Flagging(false)
    ensures Reaches(Step(s, Stop).value, PlainFlagged(s))
  {
    hide WorkerStep, ProducerStep;
    var s1 := s.(controller := Flagging(false));
    var s2 := s1.(stop := true, mark := |s.accepted|, queued := |s.tasks|, controller := Clearing(false));
    ReachesStays(PlainFlagged(s));
    ReachesBy(s2, ClearRunning, PlainFlagged(s));
    ReachesBy(s1, SetFlag, PlainFlagged(s));
  }

  lemma PlainResets(s: State)
    requires s.controller == Joined(false)
    ensures Reaches(s, s.(workers := [], controller := Idle, stop := false))
  {
    hide WorkerStep, ProducerStep;
    var s1 := s.(workers := [], controller := Resetting(false));
    var end := s1.(stop := false, controller := Idle);
    ReachesStays(end);
    ReachesBy(s1, ResetFlag, end);
    ReachesBy(s, ClearWorkers, end);
  }

  /** A stopped pool can be started with the number of workers that was set. */
  lemma StartsWith(s: State, num: nat)
    requires Inv(s) && s.controller == Idle && !s.running
    ensures Step(s, SetNumWorkers(num)).Some? && Step(Step(s, SetNumWorkers(num)).value, Start).Some?
    ensures Reaches(Step(Step(s, SetNumWorkers(num)).value, Start).value,
                    s.(numWorkers := num, running := true, workers := seq(num, i => Waiting)))
  {
    hide WorkerStep, ProducerStep;
    var s1 := s.(numWorkers := num, running := true, controller := Spawning(num));
    assert s.workers == [];
    SpawnAll(s1, num);
  }

  /** No deadlock: whatever a run has led to, if the pool is running with a worker and nobody is stopping it,
      the workers can finish all that was accepted, a call of wait_for_completion can then return, and the
      pool runs again with as many workers and nothing lost. A waiting worker is taken to wake up. */
  lemma CompletionPossible(numWorkers: nat, run: seq<Action>)
    requires Run(Initial(numWorkers), run).Some?
    requires var s := Run(Initial(numWorkers), run).value; s.controller == Idle && s.running && |s.workers| > 0
    ensures var s := Run(Initial(numWorkers), run).value;
            exists m, s' ::
              && Rests(s, m) && Step(m, Wait).Some? && Reaches(Step(m, Wait).value, s')
              && s'.controller == Idle && s'.running && |s'.workers| == |s.workers| && s'.tasks == []
              && s'.accepted == s.accepted && s'.pending == s.pending
              && forall n: nat :: n < |s.accepted| ==> n in s'.finished
  {
    var s := Run(Initial(numWorkers), run).value;
    RunKeepsInv(numWorkers, run);
    Settles(s);
    var m :| Rests(s, m);
    WaitReturns(m);
    var s' := m.(mark := |m.accepted|, queued := 0);
    assert m.accepted == m.taken + m.tasks;
  }
}
