/**
 The worker pool of pkg/worker as a protocol: every interleaving of its goroutines is a sequence of
 the steps below. A job is named by the number of the submission that brought it.
 */
module WorkerPool {

  datatype State = State(
    size: nat, capacity: nat,
    started: bool, spawned: nat,  // Start has begun; workers it has launched so far
    idle: nat, running: set<nat>, // workers in their select; jobs in a handler
    queue: seq<nat>,
    closed: bool, stopped: bool,  // the stop channel is closed; Stop has returned
    early: bool,                  // Start had finished when the stop channel was closed
    checked: map<nat, bool>,      // submissions past their first check; true for SubmitWait
    next: nat,
    accepted: seq<nat>, taken: seq<nat>, finished: set<nat>)

  function Live(s: State): nat { s.idle + |s.running| }

  function NewPool(size: int, queueSize: int): State {
    State(if size <= 0 then 1 else size, if queueSize <= 0 then 1 else queueSize,
          false, 0, 0, {}, [], false, false, false, map[], 0, [], [], {})
  }

  datatype Action =
    | Start                    // the first call of Start
    | Spawn                    // Start launches one more worker
    | Submit(blocking: bool)   // a submission makes its first check of the stop channel
    | Accept(id: nat)          // its select sends to the queue
    | Refuse(id: nat)          // its select finds the stop channel closed, or the queue full
    | Take                     // a worker's select receives a job
    | Finish(id: nat)          // a handler returns
    | Exit                     // a worker's select finds the stop channel closed
    | Close                    // the first call of Stop closes the stop channel
    | Return                   // Stop has waited for the workers

  predicate Enabled(s: State, a: Action) {
    match a
    case Start => !s.started
    case Spawn => s.started && s.spawned < s.size
    case Submit(_) => true
    case Accept(id) => id in s.checked && |s.queue| < s.capacity
    case Refuse(id) => id in s.checked && (s.closed || (!s.checked[id] && |s.queue| == s.capacity))
    case Take => s.idle > 0 && s.queue != []
    case Finish(id) => id in s.running
    case Exit => s.closed && s.idle > 0
    case Close => !s.closed
    case Return => s.closed && !s.stopped && Live(s) == 0
  }

  function Do(s: State, a: Action): State
    requires Enabled(s, a)
  {
    match a
    case Start => s.(started := true)
    case Spawn => s.(spawned := s.spawned + 1, idle := s.idle + 1)
    case Submit(blocking) =>
      if s.closed then s.(next := s.next + 1)
      else s.(next := s.next + 1, checked := s.checked[s.next := blocking])
    case Accept(id) => s.(checked := s.checked - {id}, queue := s.queue + [id], accepted := s.accepted + [id])
    case Refuse(id) => s.(checked := s.checked - {id})
    case Take =>
      s.(idle := s.idle - 1, running := s.running + {s.queue[0]}, queue := s.queue[1..], taken := s.taken + [s.queue[0]])
    case Finish(id) => s.(idle := s.idle + 1, running := s.running - {id}, finished := s.finished + {id})
    case Exit => s.(idle := s.idle - 1)
    case Close => s.(closed := true, early := s.spawned == s.size)
    case Return => s.(stopped := true)
  }

  // What every step keeps

  predicate Distinct(q: seq<nat>) { forall i, j :: 0 <= i < j < |q| ==> q[i] != q[j] }

  /** The accepted jobs are those taken and then those queued, in order, and each is accepted once. */
  predicate InOrder(s: State) { s.taken + s.queue == s.accepted && Distinct(s.accepted) }

  /** Numbers are given out once: a submission still at its select has not been accepted. */
  ghost predicate Fresh(s: State) {
    && (forall id :: id in s.accepted || id in s.checked ==> id < s.next)
    && (forall id :: id in s.checked ==> id !in s.accepted)
  }

  /** Each job taken is in a handler or has finished, never both. */
  ghost predicate Accounted(s: State) {
    (forall id :: id in s.taken <==> id in s.running || id in s.finished) && s.running !! s.finished
  }

  predicate Bounded(s: State) {
    && 0 < s.capacity && |s.queue| <= s.capacity && Live(s) <= s.spawned <= s.size && (s.spawned > 0 ==> s.started)
    && (s.stopped ==> s.closed)
    && (s.early ==> s.closed && s.spawned == s.size) && (s.stopped && s.early ==> Live(s) == 0)
  }

  ghost predicate Inv(s: State) { InOrder(s) && Fresh(s) && Accounted(s) && Bounded(s) }

  lemma {:induction false} NewPoolInv(size: int, queueSize: int)
    ensures Inv(NewPool(size, queueSize))
  {
  }

  /** The job at the head of the queue has not been taken. */
  lemma {:induction false} NextJob(s: State)
    requires Inv(s) && s.queue != []
    ensures s.queue[0] !in s.taken && |s.running + {s.queue[0]}| == |s.running| + 1
  {
    assert s.accepted[|s.taken|] == s.queue[0];
    assert forall i :: 0 <= i < |s.taken| ==> s.taken[i] == s.accepted[i];
  }

  lemma {:induction false} TakeKeeps(s: State)
    requires Inv(s) && Enabled(s, Take)
    ensures Inv(Do(s, Take))
  {
    NextJob(s);
    var s' := Do(s, Take);
    assert s'.taken + s'.queue == s.accepted;
  }

  lemma {:induction false} AcceptKeeps(s: State, id: nat)
    requires Inv(s) && Enabled(s, Accept(id))
    ensures Inv(Do(s, Accept(id)))
  {
    var s' := Do(s, Accept(id));
    assert s.taken + (s.queue + [id]) == s.accepted + [id];
  }

  lemma {:induction false} FinishKeeps(s: State, id: nat)
    requires Inv(s) && Enabled(s, Finish(id))
    ensures Inv(Do(s, Finish(id))) && |Do(s, Finish(id)).running| == |s.running| - 1
  {
  }

  /** Every step of every goroutine keeps the invariant. */
  lemma {:induction false} StepKeeps(s: State, a: Action)
    requires Inv(s) && Enabled(s, a)
    ensures Inv(Do(s, a))
  {
    match a
    case Take => TakeKeeps(s);
    case Accept(id) => AcceptKeeps(s, id);
    case Finish(id) => FinishKeeps(s, id);
    case _ =>
  }

  // Runs

  /** `t` is reached from `s` by the steps `run`. */
  ghost predicate Reaches(s: State, run: seq<Action>, t: State)
    decreases |run|
  {
    if run == [] then s == t else Enabled(s, run[0]) && Reaches(Do(s, run[0]), run[1..], t)
  }

  lemma {:induction false} RunKeeps(s: State, run: seq<Action>, t: State)
    requires Inv(s) && Reaches(s, run, t)
    ensures Inv(t) && t.size == s.size && t.capacity == s.capacity
    decreases |run|
  {
    hide Inv;
    if run != [] {
      StepKeeps(s, run[0]);
      RunKeeps(Do(s, run[0]), run[1..], t);
    }
  }

  /** Safety of every run of every pool: jobs are taken in the order they were accepted, none twice,
      none that was not accepted; the queue and the number of running handlers stay within bounds. */
  lemma {:induction false} PoolSafe(size: int, queueSize: int, run: seq<Action>, t: State)
    requires Reaches(NewPool(size, queueSize), run, t)
    ensures t.taken + t.queue == t.accepted && Distinct(t.taken)
    ensures t.running <= (set id | id in t.taken) && t.running !! t.finished
    ensures |t.queue| <= (if queueSize <= 0 then 1 else queueSize)
    ensures |t.running| <= (if size <= 0 then 1 else size)
  {
    NewPoolInv(size, queueSize);
    RunKeeps(NewPool(size, queueSize), run, t);
    assert forall i :: 0 <= i < |t.taken| ==> t.taken[i] == t.accepted[i];
  }

  /** What has been accepted, taken or finished stays so. */
  lemma {:induction false} HistoryGrows(s: State, run: seq<Action>, t: State)
    requires Reaches(s, run, t)
    ensures s.accepted <= t.accepted && s.taken <= t.taken && s.finished <= t.finished
    ensures s.closed ==> t.closed && t.early == s.early
    ensures s.stopped ==> t.stopped
    decreases |run|
  {
    hide Do;
    if run != [] {
      HistoryStep(s, run[0]);
      HistoryGrows(Do(s, run[0]), run[1..], t);
    }
  }

  lemma {:induction false} HistoryStep(s: State, a: Action)
    requires Enabled(s, a)
    ensures s.accepted <= Do(s, a).accepted && s.taken <= Do(s, a).taken && s.finished <= Do(s, a).finished
    ensures s.closed ==> Do(s, a).closed && Do(s, a).early == s.early
    ensures s.stopped ==> Do(s, a).stopped
  {
  }

  // Submissions

  predicate Answers(a: Action, id: nat) { a == Accept(id) || a == Refuse(id) }

  /** A submission that does not wait can be answered at once, whatever the others do: it is accepted if there is
      room, and while the pool is open it is refused only if there is none. One that waits cannot be answered
      exactly while the pool is open and the queue is full. */
  lemma {:induction false} AnswerExactly(s: State, id: nat)
    requires Inv(s) && id in s.checked
    ensures Enabled(s, Accept(id)) <==> |s.queue| < s.capacity
    ensures !s.closed ==> (Enabled(s, Refuse(id)) <==> !s.checked[id] && |s.queue| == s.capacity)
    ensures !s.checked[id] || s.closed ==> Enabled(s, Accept(id)) || Enabled(s, Refuse(id))
    ensures !(Enabled(s, Accept(id)) || Enabled(s, Refuse(id))) <==> s.checked[id] && !s.closed && |s.queue| == s.capacity
  {
  }

  lemma {:induction false} CheckedStep(s: State, a: Action)
    requires Enabled(s, a)
    ensures Do(s, a).next == if a.Submit? then s.next + 1 else s.next
    ensures Do(s, a).checked ==
            if a.Submit? && !s.closed then s.checked[s.next := a.blocking]
            else if a.Accept? || a.Refuse? then s.checked - {a.id}
            else s.checked
  {
  }

  lemma {:induction false} AskedStep(s: State, a: Action, id: nat)
    requires Enabled(s, a) && id < s.next
    ensures id < Do(s, a).next
    ensures id in s.checked && !Answers(a, id) ==> id in Do(s, a).checked && Do(s, a).checked[id] == s.checked[id]
    ensures id !in s.checked ==> id !in Do(s, a).checked && !Answers(a, id)
  {
    hide Do;
    CheckedStep(s, a);
  }

  /** It waits for its answer, however many others are answered first. */
  lemma {:induction false} StaysAsked(s: State, run: seq<Action>, t: State, id: nat)
    requires Reaches(s, run, t) && id in s.checked && id < s.next && forall i :: 0 <= i < |run| ==> !Answers(run[i], id)
    ensures id in t.checked && t.checked[id] == s.checked[id]
    decreases |run|
  {
    hide Do;
    if run != [] {
      assert !Answers(run[0], id);
      AskedStep(s, run[0], id);
      StaysAsked(Do(s, run[0]), run[1..], t, id);
    }
  }

  /** Once it has been answered it is never answered again. */
  lemma {:induction false} AnsweredOnce(s: State, run: seq<Action>, t: State, id: nat)
    requires Reaches(s, run, t) && id !in s.checked && id < s.next
    ensures id !in t.checked && forall i :: 0 <= i < |run| ==> !Answers(run[i], id)
    decreases |run|
  {
    hide Do;
    if run != [] {
      AskedStep(s, run[0], id);
      AnsweredOnce(Do(s, run[0]), run[1..], t, id);
      forall i | 0 < i < |run| ensures !Answers(run[i], id) { assert run[i] == run[1..][i - 1]; }
    }
  }

  // Stopping

  /** The steps by which the pool gets on once it is being stopped. */
  predicate Progress(a: Action) { !a.Submit? && !a.Start? && !a.Close? && !a.Return? }

  function Measure(s: State): nat {
    3 * |s.checked| + 2 * |s.queue| + |s.running| + Live(s)
  }

  /** Workers that Start may still launch count double. */
  function Remaining(s: State): nat
    requires s.spawned <= s.size
  {
    Measure(s) + 2 * (s.size - s.spawned)
  }

  /** The step brings the pool nearer its end, or at least takes it no further away. */
  predicate Descends(s: State, a: Action)
    requires Enabled(s, a) && s.spawned <= s.size
  {
    var t := Do(s, a);
    && t.spawned <= t.size
    && (if Progress(a) then Remaining(t) < Remaining(s) else Remaining(t) == Remaining(s))
    && (s.early ==> !a.Spawn? && (Progress(a) ==> Measure(t) < Measure(s)))
  }

  lemma {:induction false} AnswerDescends(s: State, a: Action, id: nat)
    requires s.spawned <= s.size && Enabled(s, a) && (a == Accept(id) || a == Refuse(id))
    ensures Descends(s, a)
  {
    MapShrinks(s.checked, id);
  }

  lemma {:induction false} TakeDescends(s: State)
    requires s.spawned <= s.size && Enabled(s, Take) && |s.running + {s.queue[0]}| == |s.running| + 1
    ensures Descends(s, Take)
  {
  }

  lemma {:induction false} FinishDescends(s: State, id: nat)
    requires s.spawned <= s.size && Enabled(s, Finish(id))
    ensures Descends(s, Finish(id))
  {
    assert |s.running - {id}| == |s.running| - 1;
  }

  /** Once the stop channel is closed, every step of a worker, a submission or a late Start brings the
      pool nearer its end, and no other step takes it back. */
  lemma {:induction false} ClosedDescends(s: State, a: Action)
    requires Inv(s) && s.closed && Enabled(s, a)
    ensures s.spawned <= s.size && Descends(s, a)
  {
    hide Inv;
    InvBound(s);
    match a
    case Accept(id) => AnswerDescends(s, a, id);
    case Refuse(id) => AnswerDescends(s, a, id);
    case Take =>
      NextJob(s);
      TakeDescends(s);
    case Finish(id) => FinishDescends(s, id);
    case _ =>
  }

  lemma {:induction false} MapShrinks(m: map<nat, bool>, id: nat)
    requires id in m
    ensures |m - {id}| == |m| - 1
  {
    assert (m - {id}).Keys == m.Keys - {id};
  }

  function Count(run: seq<Action>): nat {
    if run == [] then 0 else (if Progress(run[0]) then 1 else 0) + Count(run[1..])
  }

  /** So every run of a pool that is being stopped makes a bounded number of such steps. */
  lemma {:induction false} StopTerminates(s: State, run: seq<Action>, t: State)
    requires Inv(s) && s.closed && Reaches(s, run, t)
    ensures Inv(t) && Count(run) + Remaining(t) <= Remaining(s)
    decreases |run|
  {
    hide Inv, Remaining, Progress, Do;
    InvBound(s);
    if run != [] {
      StepKeeps(s, run[0]);
      ClosedDescends(s, run[0]);
      StaysClosed(s, run[0]);
      StopTerminates(Do(s, run[0]), run[1..], t);
    }
  }

  lemma {:induction false} InvBound(s: State)
    requires Inv(s)
    ensures s.spawned <= s.size && (s.early ==> s.spawned == s.size)
  {
  }

  lemma {:induction false} StaysClosed(s: State, a: Action)
    requires s.closed && Enabled(s, a)
    ensures Do(s, a).closed
  {
  }

  /** And it can only come to rest with every submission answered, every worker gone and Stop able to
      return: nothing deadlocks. */
  lemma {:induction false} StuckIsStopped(s: State)
    requires Inv(s) && s.closed && forall a :: Progress(a) ==> !Enabled(s, a)
    ensures s.checked == map[] && Live(s) == 0 && (s.stopped || Enabled(s, Return))
  {
    assert Progress(Exit) && !Enabled(s, Exit);
    forall id: nat ensures id !in s.checked && id !in s.running {
      assert Progress(Refuse(id)) && Progress(Finish(id));
    }
  }

  /** When Start had finished before the stop channel was closed, no handler runs and no job is taken
      once Stop has returned, whatever is submitted later. */
  lemma {:induction false} NothingAfterStop(s: State, run: seq<Action>, t: State)
    requires Inv(s) && s.stopped && s.early && Reaches(s, run, t)
    ensures t.taken == s.taken && t.running == {} && t.finished == s.finished
    ensures forall id :: id in t.taken ==> id in t.finished
  {
    RunKeeps(s, run, t);
    HistoryGrows(s, run, t);
    NoneTaken(s, run, t);
  }

  /** The workers are gone and no more can come, or nothing is left for them. */
  predicate NothingLeft(s: State) {
    s.closed && s.running == {} && ((s.idle == 0 && s.spawned == s.size) || (s.queue == [] && s.checked == map[]))
  }

  lemma {:induction false} QuietStep(s: State, a: Action)
    requires NothingLeft(s) && s.spawned <= s.size && Enabled(s, a)
    ensures NothingLeft(Do(s, a)) && Do(s, a).spawned <= Do(s, a).size
    ensures Do(s, a).taken == s.taken && Do(s, a).finished == s.finished
  {
  }

  lemma {:induction false} NoneTaken(s: State, run: seq<Action>, t: State)
    requires NothingLeft(s) && s.spawned <= s.size && Reaches(s, run, t)
    ensures t.taken == s.taken && NothingLeft(t) && t.finished == s.finished
    decreases |run|
  {
    hide Do, NothingLeft;
    if run != [] {
      QuietStep(s, run[0]);
      NoneTaken(Do(s, run[0]), run[1..], t);
    }
  }

  lemma {:induction false} ReachesStep(s: State, a: Action, run: seq<Action>, t: State)
    requires Enabled(s, a) && Reaches(Do(s, a), run, t)
    ensures Reaches(s, [a] + run, t)
  {
    assert ([a] + run)[1..] == run;
  }

  lemma {:induction false} ReachesNone(s: State)
    ensures Reaches(s, [], s)
  {
  }

  /** A worker launched late takes a job. */
  lemma {:induction false} TakenLate(s: State) returns (run: seq<Action>, t: State)
    requires Inv(s) && Live(s) == 0 && s.spawned < s.size && (s.queue != [] || s.checked != map[])
    ensures Reaches(s, run, t) && t.taken != s.taken && t.running != {} && (s.stopped ==> t.stopped)
  {
    hide Reaches;
    if !s.started {
      var run', t' := TakenStarted(Do(s, Start));
      run, t := [Start] + run', t';
      ReachesStep(s, Start, run', t');
    } else {
      run, t := TakenStarted(s);
    }
  }

  lemma {:induction false} TakenStarted(s: State) returns (run: seq<Action>, t: State)
    requires Inv(s) && Live(s) == 0 && s.spawned < s.size && (s.queue != [] || s.checked != map[]) && s.started
    ensures Reaches(s, run, t) && t.taken != s.taken && t.running != {} && (s.stopped ==> t.stopped)
  {
    hide Reaches;
    var s1 := Do(s, Spawn);
    if s.queue == [] {
      var id :| id in s.checked;
      var s2 := Do(s1, Accept(id));
      t := Do(s2, Take);
      ReachesNone(t);
      ReachesStep(s2, Take, [], t);
      ReachesStep(s1, Accept(id), [Take] + [], t);
      run := [Spawn] + ([Accept(id)] + ([Take] + []));
      ReachesStep(s, Spawn, [Accept(id)] + ([Take] + []), t);
    } else {
      t := Do(s1, Take);
      ReachesNone(t);
      ReachesStep(s1, Take, [], t);
      run := [Spawn] + ([Take] + []);
      ReachesStep(s, Spawn, [Take] + [], t);
    }
  }

  /** Exactly when a handler can still run after Stop has found all workers gone: Start has workers yet
      to launch, and a job is queued or a submission is at its select. */
  lemma {:induction false} RunsAgain(s: State)
    requires Inv(s) && s.closed && Live(s) == 0
    ensures (exists run, t :: Reaches(s, run, t) && t.taken != s.taken) <==>
            s.spawned < s.size && (s.queue != [] || s.checked != map[])
  {
    hide Reaches, Inv;
    InvBound(s);
    if s.spawned < s.size && (s.queue != [] || s.checked != map[]) {
      var run, t := TakenLate(s);
    } else {
      forall run, t | Reaches(s, run, t) ensures t.taken == s.taken {
        NoneTaken(s, run, t);
      }
    }
  }

  // Without that condition the promise fails: Start after Stop.

  /** A run in which Stop has returned and a handler runs nevertheless. */
  lemma {:induction false} LateStart(size: int, queueSize: int) returns (run: seq<Action>, t: State)
    ensures Reaches(NewPool(size, queueSize), run, t) && t.stopped && t.running == {0}
  {
    hide Reaches;
    var s0 := NewPool(size, queueSize);
    var s1 := Do(s0, Submit(false));
    var s2 := Do(s1, Accept(0));
    var s3 := Do(s2, Close);
    var s4 := Do(s3, Return);
    var s5 := Do(s4, Start);
    var s6 := Do(s5, Spawn);
    t := Do(s6, Take);
    ReachesNone(t);
    ReachesStep(s6, Take, [], t);
    ReachesStep(s5, Spawn, [Take] + [], t);
    ReachesStep(s4, Start, [Spawn] + ([Take] + []), t);
    ReachesStep(s3, Return, [Start] + ([Spawn] + ([Take] + [])), t);
    ReachesStep(s2, Close, [Return] + ([Start] + ([Spawn] + ([Take] + []))), t);
    ReachesStep(s1, Accept(0), [Close] + ([Return] + ([Start] + ([Spawn] + ([Take] + [])))), t);
    run := [Submit(false)] + ([Accept(0)] + ([Close] + ([Return] + ([Start] + ([Spawn] + ([Take] + []))))));
    ReachesStep(s0, Submit(false), [Accept(0)] + ([Close] + ([Return] + ([Start] + ([Spawn] + ([Take] + []))))), t);
  }
}
