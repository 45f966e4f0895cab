/** The compilation locks of the router: a path is checked, then locked, then compiled by a job
    that releases the lock when it ends. The check and the locking are two separate steps. */
module CompileLocks {

  type Path = nat

  /** Where a requesting thread stands with the cache it is about to compile. */
  datatype Requester =
    | Idle
    | Checked(path: Path)                   // found unlocked
    | Claimed(path: Path)                   // locked, job not yet started
    | Waiting(path: Path)                   // started the job on its own time

  /** The lock set, the jobs under way, and the requesting threads. */
  datatype State = State(locks: set<Path>, jobs: multiset<Path>, threads: seq<Requester>)

  datatype Step =
    | Check(t: nat, path: Path)             // look the path up in the lock set
    | GiveUp(t: nat)                        // no model to compile with
    | Claim(t: nat)                         // insert the path into the lock set
    | Launch(t: nat, blocking: bool)        // start the job, in place or in the background
    | Finish(path: Path)                    // a job ends, successfully or not: its guard unlocks

  function Init(n: nat): State {
    State({}, multiset{}, seq(n, i requires 0 <= i < n => Idle))
  }

  /** A blocked requester goes on when its job has ended. */
  function Wake(r: Requester, path: Path): Requester {
    if r == Waiting(path) then Idle else r
  }

  function WakeAll(rs: seq<Requester>, path: Path): (r: seq<Requester>)
    ensures |r| == |rs| && forall i :: 0 <= i < |rs| ==> r[i] == Wake(rs[i], path)
  {
    seq(|rs|, i requires 0 <= i < |rs| => Wake(rs[i], path))
  }

  /** One step; a step that is not possible changes nothing. */
  function Apply(s: State, step: Step): (r: State)
    ensures |r.threads| == |s.threads|
  {
    match step
    case Check(t, path) =>
      if t < |s.threads| && s.threads[t].Idle? && path !in s.locks
      then s.(threads := s.threads[t := Checked(path)]) else s
    case GiveUp(t) =>
      if t < |s.threads| && s.threads[t].Checked? then s.(threads := s.threads[t := Idle]) else s
    case Claim(t) =>
      if t < |s.threads| && s.threads[t].Checked?
      then s.(locks := s.locks + {s.threads[t].path}, threads := s.threads[t := Claimed(s.threads[t].path)]) else s
    case Launch(t, blocking) =>
      if t < |s.threads| && s.threads[t].Claimed?
      then
        var path := s.threads[t].path;
        State(s.locks, s.jobs + multiset{path}, s.threads[t := if blocking then Waiting(path) else Idle])
      else s
    case Finish(path) =>
      if path in s.jobs
      then State(s.locks - {path}, s.jobs - multiset{path}, WakeAll(s.threads, path)) else s
  }

  function Run(n: nat, steps: seq<Step>): State
    decreases |steps|
  {
    if steps == [] then Init(n) else Apply(Run(n, steps[..|steps| - 1]), steps[|steps| - 1])
  }

  /** The path is compiled or about to be. */
  predicate Busy(s: State, path: Path) {
    path in s.jobs || exists t :: 0 <= t < |s.threads| && s.threads[t] == Claimed(path)
  }

  /** The locks are the busy paths, no path has two jobs, and a claimed path has none yet. */
  ghost predicate Sound(s: State) {
    && (forall path :: path in s.locks <==> Busy(s, path))
    && (forall path :: s.jobs[path] <= 1)
    && (forall t :: 0 <= t < |s.threads| && s.threads[t].Claimed? ==> s.threads[t].path !in s.jobs)
  }

  /** What holds besides with one requesting thread: nobody locks a path it has checked, and a
      blocked thread waits for a job that exists. */
  ghost predicate SoundForOne(s: State) {
    && Sound(s)
    && (forall t :: 0 <= t < |s.threads| && s.threads[t].Waiting? ==> s.threads[t].path in s.jobs)
    && (forall t :: 0 <= t < |s.threads| && s.threads[t].Checked? ==> s.threads[t].path !in s.locks)
  }

  lemma StepKeepsSound(s: State, step: Step)
    requires |s.threads| <= 1 && SoundForOne(s)
    ensures SoundForOne(Apply(s, step))
  {
    match step
    case Check(_, _) => QuietStep(s, step);
    case GiveUp(_) => QuietStep(s, step);
    case Claim(t) => ClaimKeepsSound(s, t);
    case Launch(t, blocking) => LaunchKeepsSound(s, t, blocking);
    case Finish(path) => FinishKeepsSound(s, path);
  }

  lemma QuietStep(s: State, step: Step)
    requires |s.threads| <= 1 && SoundForOne(s) && (step.Check? || step.GiveUp?)
    ensures SoundForOne(Apply(s, step))
  {
    forall p ensures Busy(Apply(s, step), p) <==> Busy(s, p) {
      OneThread(s, p);
      OneThread(Apply(s, step), p);
    }
  }

  lemma ClaimKeepsSound(s: State, t: nat)
    requires |s.threads| <= 1 && SoundForOne(s)
    ensures SoundForOne(Apply(s, Claim(t)))
  {
    var r := Apply(s, Claim(t));
    forall p ensures p in r.locks <==> Busy(r, p) {
      OneThread(s, p);
      OneThread(r, p);
    }
    if t < |s.threads| && s.threads[t].Checked? {
      assert !Busy(s, s.threads[t].path);
    }
  }

  lemma LaunchKeepsSound(s: State, t: nat, blocking: bool)
    requires |s.threads| <= 1 && SoundForOne(s)
    ensures SoundForOne(Apply(s, Launch(t, blocking)))
  {
    var r := Apply(s, Launch(t, blocking));
    forall p ensures p in r.locks <==> Busy(r, p) {
      OneThread(s, p);
      OneThread(r, p);
    }
  }

  lemma FinishKeepsSound(s: State, path: Path)
    requires |s.threads| <= 1 && SoundForOne(s)
    ensures SoundForOne(Apply(s, Finish(path)))
  {
    var r := Apply(s, Finish(path));
    forall p ensures p in r.locks <==> Busy(r, p) {
      OneThread(s, p);
      OneThread(r, p);
    }
  }

  lemma OneThread(s: State, path: Path)
    requires |s.threads| <= 1
    ensures Busy(s, path) <==> path in s.jobs || (|s.threads| == 1 && s.threads[0] == Claimed(path))
  {
  }

  lemma {:induction false} RunIsSound(n: nat, steps: seq<Step>)
    requires n <= 1
    ensures |Run(n, steps).threads| == n && SoundForOne(Run(n, steps))
    decreases |steps|
  {
    if steps != [] {
      RunIsSound(n, steps[..|steps| - 1]);
      StepKeepsSound(Run(n, steps[..|steps| - 1]), steps[|steps| - 1]);
    }
  }

  /** A thread that starts a job in place goes on with nothing else until a job for that path ends;
      one that starts it in the background is free at once. */
  lemma {:induction false} BlockedUntilFinish(s: State, t: nat, steps: seq<Step>)
    requires t < |s.threads| && s.threads[t].Claimed?
    ensures Apply(s, Launch(t, false)).threads[t] == Idle
    ensures var path := s.threads[t].path;
            Finish(path) !in steps ==> RunFrom(Apply(s, Launch(t, true)), steps).threads[t] == Waiting(path)
    decreases |steps|
  {
    var blocked := Apply(s, Launch(t, true));
    if steps != [] {
      var front := steps[..|steps| - 1];
      BlockedUntilFinish(s, t, front);
      assert steps == front + [steps[|steps| - 1]];
      if Finish(s.threads[t].path) !in steps {
        StillWaiting(RunFrom(blocked, front), steps[|steps| - 1], t, s.threads[t].path);
      }
    }
  }

  lemma StillWaiting(s: State, step: Step, t: nat, path: Path)
    requires t < |s.threads| && step != Finish(path)
    ensures s.threads[t] == Waiting(path) ==> Apply(s, step).threads[t] == Waiting(path)
  {
  }

  /** The state after the steps, from any state. */
  function RunFrom(s: State, steps: seq<Step>): (r: State)
    ensures |r.threads| == |s.threads|
    decreases |steps|
  {
    if steps == [] then s else Apply(RunFrom(s, steps[..|steps| - 1]), steps[|steps| - 1])
  }

  /** Two requesting threads can both find the path unlocked: then both lock it and both compile. */
  function RaceSteps(path: Path): seq<Step> {
    [Check(0, path), Check(1, path), Claim(0), Claim(1), Launch(0, false), Launch(1, false)]
  }

  lemma RunStep(n: nat, steps: seq<Step>, step: Step)
    ensures Run(n, steps + [step]) == Apply(Run(n, steps), step)
  {
    assert (steps + [step])[..|steps|] == steps;
  }

  lemma RaceDoublesJob(n: nat, path: Path)
    requires n >= 2
    ensures Run(n, RaceSteps(path)).jobs[path] == 2
  {
    var none: seq<Step> := [];
    var s1 := [Check(0, path)];
    var s2 := s1 + [Check(1, path)];
    var s3 := s2 + [Claim(0)];
    var s4 := s3 + [Claim(1)];
    var s5 := s4 + [Launch(0, false)];
    assert none + [Check(0, path)] == s1 && s5 + [Launch(1, false)] == RaceSteps(path);
    assert Run(n, none) == Init(n);
    RunStep(n, none, Check(0, path));
    RunStep(n, s1, Check(1, path));
    RunStep(n, s2, Claim(0));
    RunStep(n, s3, Claim(1));
    RunStep(n, s4, Launch(0, false));
    RunStep(n, s5, Launch(1, false));
    Race(n, path);
  }

  /** The states of the race, one after the other. */
  lemma Race(n: nat, path: Path)
    requires n >= 2
    ensures var s := Apply(Apply(Apply(Apply(Init(n), Check(0, path)), Check(1, path)), Claim(0)), Claim(1));
            Apply(Apply(s, Launch(0, false)), Launch(1, false)).jobs[path] == 2
  {
    var idle := Init(n).threads;
    var s1 := State({}, multiset{}, idle[0 := Checked(path)]);
    assert Apply(Init(n), Check(0, path)) == s1;
    var s2 := State({}, multiset{}, s1.threads[1 := Checked(path)]);
    assert Apply(s1, Check(1, path)) == s2;
    var s3 := State({path}, multiset{}, s2.threads[0 := Claimed(path)]);
    assert Apply(s2, Claim(0)) == s3;
    var s4 := State({path}, multiset{}, s3.threads[1 := Claimed(path)]);
    assert Apply(s3, Claim(1)) == s4;
    var s5 := State({path}, multiset{path}, s4.threads[0 := Idle]);
    assert Apply(s4, Launch(0, false)) == s5;
    assert Apply(s5, Launch(1, false)).jobs == multiset{path, path};
  }

  /** In every reachable state, whatever the threads and jobs do and in whatever order: the locks
      are exactly the busy paths and no path is compiled twice, if and only if at most one thread
      makes requests. */
  lemma LocksSoundIff(n: nat)
    ensures (forall steps: seq<Step> :: Sound(Run(n, steps))) <==> n <= 1
  {
    if n <= 1 {
      forall steps: seq<Step> ensures Sound(Run(n, steps)) {
        RunIsSound(n, steps);
      }
    } else {
      RaceDoublesJob(n, 0);
      assert !Sound(Run(n, RaceSteps(0)));
    }
  }

  /** With one requesting thread, when it is idle and no job is left, every lock has been released. */
  lemma NothingLeftLocked(steps: seq<Step>)
    ensures var s := Run(1, steps);
            |s.threads| == 1 && (s.jobs == multiset{} && s.threads[0].Idle? ==> s.locks == {})
  {
    RunIsSound(1, steps);
    var s := Run(1, steps);
    forall p ensures Busy(s, p) <==> p in s.jobs || s.threads[0] == Claimed(p) {
      OneThread(s, p);
    }
  }
}
