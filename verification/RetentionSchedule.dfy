/**
 The retention scheduler of collector/src/garbage_collector.go: a loop timed from a completion
 recorded in the datastore, in a process that may be stopped and started again at any moment.
 Times are in nanoseconds.
 */
module RetentionSchedule {
  import opened Text

  const SECOND := 1_000_000_000
  const INTERVAL := 24 * 3600 * SECOND
  const STARTUP_GRACE := 30 * SECOND
  const RETRY_DELAY := 15 * 60 * SECOND

  function Max(a: int, b: int): int { if a < b then b else a }

  /** The scheduling decision. `last` is the recorded completion, if one was found. */
  function ComputeNextRunDelay(last: Option<int>, readError: bool, lastAttemptFailed: bool, now: int): int {
    if lastAttemptFailed then RETRY_DELAY
    else if readError || last.None? then STARTUP_GRACE
    else
      var remaining := last.value + INTERVAL - now;
      if remaining <= STARTUP_GRACE then STARTUP_GRACE else remaining
  }

  /** A collection is due at the later of a grace period from now and an interval from the last one. */
  lemma {:induction false} DueTime(last: int, now: int)
    ensures now + ComputeNextRunDelay(Some(last), false, false, now) == Max(now + STARTUP_GRACE, last + INTERVAL)
  {
  }

  // The process

  datatype Phase =
    | Down
    | Deciding(failed: bool)  // at the top of the loop; whether the last attempt failed
    | Waiting(until: int)     // the timer is set
    | Collecting

  /** The clock, the process, the record in the datastore, and what has happened: the times of all
      attempts and of all recorded completions. */
  datatype State = State(now: int, phase: Phase, last: Option<int>, attempts: seq<int>, completions: seq<int>)

  datatype Action =
    | Tick(now: int)           // time passes; a timer that has run down goes off first
    | Launch                   // the process starts
    | Stop                     // it is shut down, or dies, whatever it is doing
    | Decide(readError: bool)
    | Fire                     // the timer goes off and a collection is attempted
    | Complete                 // the collection is done and recorded
    | Fail

  predicate Enabled(s: State, a: Action) {
    match a
    case Tick(now) => s.now <= now && (s.phase.Waiting? ==> now <= s.phase.until)
    case Launch => s.phase.Down?
    case Stop => !s.phase.Down?
    case Decide(_) => s.phase.Deciding?
    case Fire => s.phase.Waiting? && s.phase.until <= s.now
    case Complete => s.phase.Collecting?
    case Fail => s.phase.Collecting?
  }

  function Do(s: State, a: Action): State
    requires Enabled(s, a)
  {
    match a
    case Tick(now) => s.(now := now)
    case Launch => s.(phase := Deciding(false))
    case Stop => s.(phase := Down)
    case Decide(readError) =>
      s.(phase := Waiting(s.now + ComputeNextRunDelay(s.last, readError, s.phase.failed, s.now)))
    case Fire => s.(phase := Collecting, attempts := s.attempts + [s.now])
    case Complete => s.(phase := Deciding(false), last := Some(s.now), completions := s.completions + [s.now])
    case Fail => s.(phase := Deciding(true))
  }

  ghost predicate Reaches(s: State, run: seq<Action>, t: State)
    decreases |run|
  {
    if run == [] then s == t else Enabled(s, run[0]) && Reaches(Do(s, run[0]), run[1..], t)
  }

  // How far apart completions are

  /** A collection at `time` keeps its distance from the recorded one. */
  predicate Due(s: State, time: int) { s.last.Some? ==> s.last.value + INTERVAL <= time }

  predicate Spaced(times: seq<int>) {
    forall i :: 0 < i < |times| ==> times[i - 1] + 86_400_000_000_000 <= times[i]
  }

  predicate Inv(s: State) {
    && Spaced(s.completions)
    && s.last == (if s.completions == [] then None else Some(s.completions[|s.completions| - 1]))
    && (s.last.Some? ==> s.last.value <= s.now)
    && (s.phase.Waiting? ==> Due(s, s.phase.until) && s.now <= s.phase.until)
    && (s.phase.Collecting? ==> Due(s, s.now))
    && (s.phase == Deciding(true) ==> Due(s, s.now))
  }

  /** A record that cannot be read is treated as due, although it is not. */
  predicate Hasty(s: State, a: Action) {
    a == Decide(true) && s.phase == Deciding(false) && s.last.Some? && s.now + STARTUP_GRACE < s.last.value + INTERVAL
  }

  /** Only a hasty decision breaks the invariant. */
  lemma {:induction false} StepKeeps(s: State, a: Action)
    requires Inv(s) && Enabled(s, a)
    ensures Inv(Do(s, a)) <==> !Hasty(s, a)
  {
    assert a.Complete? ==> Spaced(s.completions + [s.now]);
  }

  /** No decision of the run is hasty; this is so in particular when the record can always be read. */
  ghost predicate Patient(s: State, run: seq<Action>)
    decreases |run|
  {
    run == [] || (Enabled(s, run[0]) && !Hasty(s, run[0]) && Patient(Do(s, run[0]), run[1..]))
  }

  /** Without hasty decisions, recorded completions are at least one interval apart, over any number of
      restarts, crashes in the middle of a collection, failures and retries. */
  lemma {:induction false} CompletionsSpaced(s: State, run: seq<Action>, t: State)
    requires Inv(s) && Reaches(s, run, t) && Patient(s, run)
    ensures Inv(t) && Spaced(t.completions)
    decreases |run|
  {
    hide Do, Enabled;
    if run != [] {
      StepKeeps(s, run[0]);
      CompletionsSpaced(Do(s, run[0]), run[1..], t);
    }
  }

  const FRESH := State(0, Down, None, [], [])

  lemma {:induction false} ReadableIsPatient(s: State, run: seq<Action>, t: State)
    requires Reaches(s, run, t) && Decide(true) !in run
    ensures Patient(s, run)
    decreases |run|
  {
    hide Do, Enabled;
    if run != [] {
      assert run[0] in run && forall a :: a in run[1..] ==> a in run;
      ReadableIsPatient(Do(s, run[0]), run[1..], t);
    }
  }

  /** The history of every collector whose record can be read whenever it is needed. */
  lemma {:induction false} FromTheStart(run: seq<Action>, t: State)
    requires Reaches(FRESH, run, t) && Decide(true) !in run
    ensures Spaced(t.completions)
  {
    ReadableIsPatient(FRESH, run, t);
    CompletionsSpaced(FRESH, run, t);
  }

  lemma {:induction false} ReachesStep(s: State, a: Action, run: seq<Action>, t: State)
    requires Enabled(s, a) && Reaches(Do(s, a), run, t)
    ensures Reaches(s, [a] + run, t)
  {
    assert ([a] + run)[1..] == run;
  }

  /** Every hasty decision can cost the distance: the next completion may come a grace period later. */
  lemma {:induction false} HastyDecision(s: State) returns (run: seq<Action>, t: State)
    requires Inv(s) && Hasty(s, Decide(true))
    ensures Reaches(s, run, t) && !Spaced(t.completions)
  {
    hide Reaches;
    var s1 := Do(s, Decide(true));
    var s2 := Do(s1, Tick(s.now + STARTUP_GRACE));
    var s3 := Do(s2, Fire);
    t := Do(s3, Complete);
    NoStep(t);
    ReachesStep(s3, Complete, [], t);
    ReachesStep(s2, Fire, [Complete] + [], t);
    ReachesStep(s1, Tick(s.now + STARTUP_GRACE), [Fire] + ([Complete] + []), t);
    run := [Decide(true)] + ([Tick(s.now + STARTUP_GRACE)] + ([Fire] + ([Complete] + [])));
    ReachesStep(s, Decide(true), [Tick(s.now + STARTUP_GRACE)] + ([Fire] + ([Complete] + [])), t);
    var n := |s.completions|;
    assert t.completions[n - 1] == s.last.value && t.completions[n] == s.now + STARTUP_GRACE;
  }

  lemma {:induction false} NoStep(s: State)
    ensures Reaches(s, [], s)
  {
  }

  // When collections are attempted

  /** A process that waits and is not stopped makes its next attempt exactly when its timer is due; so
      it has made one as soon as the clock is past that instant. */
  lemma {:induction false} AttemptOnTime(s: State, run: seq<Action>, t: State)
    requires s.phase.Waiting? && s.now <= s.phase.until && Reaches(s, run, t) && Stop !in run
    ensures t.attempts == s.attempts ==> t.phase == s.phase && t.now <= s.phase.until
    ensures t.attempts != s.attempts ==> |s.attempts| < |t.attempts| && t.attempts[|s.attempts|] == s.phase.until
    decreases |run|
  {
    if run != [] {
      assert run[0] in run && forall a :: a in run[1..] ==> a in run;
      var s' := Do(s, run[0]);
      if run[0].Fire? {
        AttemptsGrow(s', run[1..], t);
      } else {
        AttemptOnTime(s', run[1..], t);
      }
    }
  }

  lemma {:induction false} AttemptsGrow(s: State, run: seq<Action>, t: State)
    requires Reaches(s, run, t)
    ensures s.attempts <= t.attempts && s.completions <= t.completions && s.now <= t.now
    decreases |run|
  {
    if run != [] {
      AttemptsGrow(Do(s, run[0]), run[1..], t);
    }
  }

  /** When a process that decides now attempts a collection: half a minute from now, or a day from the last
      completion if there is one and that is later. */
  function DueAt(s: State): int {
    match s.last
    case None => s.now + 30_000_000_000
    case Some(last) => Max(s.now + 30_000_000_000, last + 86_400_000_000_000)
  }

  /** Whatever has happened before, a process that decides, after no failure of its own and with a readable
      record, and is still up later than that, has attempted a collection at exactly that instant. */
  lemma {:induction false} EveryProcessAttempts(s: State, run: seq<Action>, t: State)
    requires Inv(s) && s.phase == Deciding(false)
    requires Reaches(Do(s, Decide(false)), run, t) && Stop !in run && t.now > DueAt(s)
    ensures |s.attempts| < |t.attempts| && t.attempts[|s.attempts|] == DueAt(s)
  {
    if s.last.Some? {
      DueTime(s.last.value, s.now);
    }
    AttemptOnTime(Do(s, Decide(false)), run, t);
  }

  /** After a failed attempt, a process that decides and is still up a quarter of an hour later has made its next
      attempt at exactly that time, whatever the record says and whether or not it can be read. */
  lemma {:induction false} RetriesOnTime(s: State, readError: bool, run: seq<Action>, t: State)
    requires s.phase == Deciding(true)
    requires Reaches(Do(s, Decide(readError)), run, t) && Stop !in run && t.now > s.now + 900_000_000_000
    ensures |s.attempts| < |t.attempts| && t.attempts[|s.attempts|] == s.now + 900_000_000_000
  {
    AttemptOnTime(Do(s, Decide(readError)), run, t);
  }
}
