/** A producer of kernel fences shared by the measuring thread and a watchdog that must signal a
    fence the measuring thread leaves behind. Each critical section is one step. */
module FenceProducer {
  import opened Options

  /** One VGEM_FENCE_SIGNAL call: for which fence, on whose behalf, and its result. */
  datatype Attempt = Attempt(fence: nat, forced: bool, ok: bool)

  /** The shared record; with it, what happened so far: the fences attached, the signal calls, and
      whether a timed wait ended with an error code that no release answered. */
  datatype Shared = Shared(fence: nat, active: bool, stop: bool, forced: bool, failed: bool,
                           attached: seq<nat>, log: seq<Attempt>, late: bool)

  datatype WakeUp = Signalled | TimedOut | WaitError

  // ---- the critical sections as functions -----------------------------------------------------

  function Released(p: Shared, forced: bool, ok: bool): Shared {
    if !p.active then p
    else p.(active := false, forced := p.forced || forced, failed := p.failed || !ok,
            log := p.log + [Attempt(p.fence, forced, ok)])
  }

  predicate Good(p: Shared) { !p.forced && !p.failed }

  function Attached(p: Shared, fence: nat): Shared {
    p.(fence := fence, active := true, attached := p.attached + [fence])
  }

  /** The watchdog behind a timed wait. */
  function Woken(p: Shared, r: WakeUp, ok: bool): Shared {
    if r.TimedOut? && p.active then Released(p, true, ok)
    else if !r.Signalled? then Released(p.(failed := true, late := true), true, ok)
    else p
  }

  // ---- what the record means --------------------------------------------------------------------

  function Fences(log: seq<Attempt>): (fs: seq<nat>)
    ensures |fs| == |log| && forall i :: 0 <= i < |log| ==> fs[i] == log[i].fence
  {
    seq(|log|, i requires 0 <= i < |log| => log[i].fence)
  }

  predicate Distinct(fs: seq<nat>) {
    forall i, j :: 0 <= i < j < |fs| ==> fs[i] != fs[j]
  }

  /** No signal call was forced by the watchdog, and none failed. */
  predicate Clean(log: seq<Attempt>) {
    forall i :: 0 <= i < |log| ==> !log[i].forced && log[i].ok
  }

  /** Every fence but the active one has had exactly one signal call, in the order of attaching, and the
      two flags say exactly whether anything went wrong. */
  ghost predicate Sound(p: Shared) {
    && Distinct(p.attached)
    && p.attached == Fences(p.log) + (if p.active then [p.fence] else [])
    && (Good(p) <==> Clean(p.log) && !p.late)
  }

  lemma ReleasedSound(p: Shared, forced: bool, ok: bool)
    requires Sound(p)
    ensures Sound(Released(p, forced, ok)) && !Released(p, forced, ok).active
    ensures Fences(Released(p, forced, ok).log) == p.attached
  {
    if p.active {
      var q := Released(p, forced, ok);
      assert Fences(q.log) == Fences(p.log) + [p.fence];
      assert q.log[|p.log|] == Attempt(p.fence, forced, ok);
      assert forall i :: 0 <= i < |p.log| ==> q.log[i] == p.log[i];
    }
  }

  /** The record itself, changed in place under its mutex. */
  class Producer {
    var fence: nat
    var active: bool
    var stop: bool
    var forced: bool
    var failed: bool
    ghost var attached: seq<nat>
    ghost var log: seq<Attempt>
    ghost var late: bool

    constructor ()
      ensures Now() == Initial()
    {
      fence, active, stop, forced, failed := 0, false, false, false, false;
      attached, log, late := [], [], false;
    }

    ghost function Now(): Shared
      reads this
    { Shared(fence, active, stop, forced, failed, attached, log, late) }

    /** Nothing is active afterwards and every attached fence has had its one signal call. Calls made
        before are kept; there is one more exactly if a fence was active. */
    method ReleaseLocked(force: bool) returns (ok: bool)
      requires Sound(Now())
      modifies this
      ensures Sound(Now()) && !active && attached == old(attached) && Fences(log) == attached
      ensures log == old(log) + if old(active) then [Attempt(old(fence), force, ok)] else []
      ensures forced == (old(forced) || (old(active) && force)) && failed == (old(failed) || (old(active) && !ok))
      ensures fence == old(fence) && stop == old(stop) && late == old(late)
      ensures Now() == Released(old(Now()), force, ok)
    {
      ReleasedSound(Now(), force, true);
      ReleasedSound(Now(), force, false);
      ok := true;
      if !active { return; }
      ok := *;
      log := log + [Attempt(fence, force, ok)];
      if !ok { failed := true; }
      active := false;
      forced := forced || force;
    }

    /** True exactly if no signal call so far was forced or failed and no timed wait ended late. */
    method Release() returns (good: bool, ok: bool)
      requires Sound(Now())
      modifies this
      ensures Sound(Now()) && !active && Fences(log) == attached == old(attached)
      ensures good <==> Clean(log) && !late
      ensures forced == old(forced) && failed == (old(failed) || (old(active) && !ok)) && stop == old(stop)
      ensures Now() == Released(old(Now()), false, ok)
    {
      ok := ReleaseLocked(false);
      good := !forced && !failed;
    }

    /** `made` is the fence the kernel makes, if it makes one. It then is the only one without a signal
        call, as long as none was active. */
    method Attach(made: Option<nat>) returns (done: bool)
      requires Sound(Now()) && (made.Some? ==> made.value !in attached)
      modifies this
      ensures done <==> made.Some?
      ensures done ==> active && fence == made.value && attached == old(attached) + [made.value]
      ensures forced == old(forced) && failed == old(failed) && stop == old(stop) && late == old(late)
      ensures !old(active) ==> Sound(Now()) && log == old(log) && attached == Fences(log) + if done then [fence] else []
      ensures Now() == if done then Attached(old(Now()), made.value) else old(Now())
    {
      done := made.Some?;
      if done {
        fence, active := made.value, true;
        attached := attached + [fence];
      }
    }

    /** Woken for any reason but a signal, the watchdog leaves no fence without its signal call, and the
        producer is not good any more. */
    method WakeFromTimedWait(r: WakeUp) returns (ok: bool)
      requires Sound(Now())
      modifies this
      ensures Sound(Now()) && attached == old(attached)
      ensures if r.Signalled? then Now() == old(Now()) else !active && Fences(log) == attached && !Good(Now())
      ensures !r.Signalled? ==> log == old(log) + if old(active) then [Attempt(old(fence), true, ok)] else []
      ensures r.TimedOut? && old(active) ==> forced && failed == (old(failed) || !ok) && late == old(late)
      ensures r.WaitError? || (r.TimedOut? && !old(active)) ==> failed && late && forced == (old(forced) || old(active))
      ensures Now() == Woken(old(Now()), r, ok)
    {
      ok := true;
      if r.TimedOut? && active {
        ok := ReleaseLocked(true);
      } else if !r.Signalled? {
        failed, late := true, true;
        ok := ReleaseLocked(true);
      }
    }
  }

  // ---- the two threads --------------------------------------------------------------------------

  /** Where main is: between measurements, with a fence attached, and through its clean-up. */
  datatype MainAt = Between | Measuring | CleaningUp | Stopping | Joining | Ended

  datatype WatchAt = Starting | Sleeping | Timing | Exited

  /** `result` is what the latest release() of a measurement returned. */
  datatype State = State(p: Shared, main: MainAt, watch: WatchAt, result: Option<bool>)

  datatype Step =
    | AttachFence(made: Option<nat>)
    | ReleaseFence(ok: bool)
    | GiveUp
    | ReleaseAtCleanUp(ok: bool)
    | AskToStop
    | Join
    | Watch(r: WakeUp, ok: bool, okAtExit: bool)

  function Initial(): Shared { Shared(0, false, false, false, false, [], [], false) }

  function Start(): State { State(Initial(), Between, Starting, None) }

  /** The watchdog's loop, from holding the mutex to the next wait or its end. */
  function Watched(s: State, okAtExit: bool): State {
    if s.p.stop then s.(p := Released(s.p, false, okAtExit), watch := Exited)
    else s.(watch := if s.p.active then Timing else Sleeping)
  }

  /** One critical section of either thread; the kernel's answers are in the step. */
  predicate Next(s: State, a: Step, t: State) {
    match a
    case AttachFence(made) =>
      && s.main.Between? && (made.Some? ==> made.value !in s.p.attached)
      && t == if made.Some? then s.(p := Attached(s.p, made.value), main := Measuring) else s.(main := CleaningUp)
    case ReleaseFence(ok) =>
      && s.main.Measuring?
      && var p := Released(s.p, false, ok);
         t == s.(p := p, main := if Good(p) then Between else CleaningUp, result := Some(Good(p)))
    case GiveUp => (s.main.Between? || s.main.Measuring?) && t == s.(main := CleaningUp)
    case ReleaseAtCleanUp(ok) => s.main.CleaningUp? && t == s.(p := Released(s.p, false, ok), main := Stopping)
    case AskToStop => s.main.Stopping? && t == s.(p := s.p.(stop := true), main := Joining)
    case Join => s.main.Joining? && s.watch.Exited? && t == s.(main := Ended)
    case Watch(r, ok, okAtExit) =>
      && !s.watch.Exited?
      && t == Watched(if s.watch.Timing? then s.(p := Woken(s.p, r, ok)) else s, okAtExit)
  }

  /** Any interleaving of the two threads' critical sections. */
  ghost predicate IsRun(ss: seq<State>, steps: seq<Step>) {
    && |ss| == |steps| + 1 && ss[0] == Start()
    && forall i :: 0 <= i < |steps| ==> Next(ss[i], steps[i], ss[i + 1])
  }

  // ---- what every run keeps -----------------------------------------------------------------------

  ghost predicate Inv(s: State) {
    && Sound(s.p)
    && (s.p.active ==> s.main.Measuring? || s.main.CleaningUp?)
    && (s.p.stop <==> s.main.Joining? || s.main.Ended?)
    && (s.watch.Exited? ==> s.p.stop)
    && (s.main.Ended? ==> s.watch.Exited?)
  }

  lemma WokenSound(p: Shared, r: WakeUp, ok: bool)
    requires Sound(p)
    ensures Sound(Woken(p, r, ok)) && (Woken(p, r, ok).active ==> p.active)
  {
    ReleasedSound(p, true, ok);
    ReleasedSound(p.(failed := true, late := true), true, ok);
  }

  lemma WatchKeeps(s: State, r: WakeUp, ok: bool, okAtExit: bool, t: State)
    requires Inv(s) && Next(s, Watch(r, ok, okAtExit), t)
    ensures Inv(t)
  {
    WokenSound(s.p, r, ok);
    var q := if s.watch.Timing? then Woken(s.p, r, ok) else s.p;
    ReleasedSound(q, false, okAtExit);
  }

  lemma StepKeeps(s: State, a: Step, t: State)
    requires Inv(s) && Next(s, a, t)
    ensures Inv(t)
  {
    match a
    case AttachFence(made) =>
    case ReleaseFence(ok) => ReleasedSound(s.p, false, ok);
    case GiveUp =>
    case ReleaseAtCleanUp(ok) => ReleasedSound(s.p, false, ok);
    case AskToStop =>
    case Join =>
    case Watch(r, ok, okAtExit) => WatchKeeps(s, r, ok, okAtExit, t);
  }

  lemma {:induction false} RunKeeps(ss: seq<State>, steps: seq<Step>, i: nat)
    requires IsRun(ss, steps) && i < |ss|
    ensures Inv(ss[i])
  {
    if i > 0 {
      RunKeeps(ss, steps, i - 1);
      StepKeeps(ss[i - 1], steps[i - 1], ss[i]);
    }
  }

  /** In every interleaving, up to any point: every attached fence but the one now active has had
      exactly one signal call, in the order of attaching, and the active one none. */
  lemma OneAttemptEach(ss: seq<State>, steps: seq<Step>, i: nat)
    requires IsRun(ss, steps) && i < |ss|
    ensures var p := ss[i].p;
      Distinct(p.attached) && p.attached == Fences(p.log) + (if p.active then [p.fence] else [])
  {
    RunKeeps(ss, steps, i);
  }

  /** When main has joined the watchdog no fence is left active: all attached ones were signalled once. */
  lemma NoneLeftAfterJoin(ss: seq<State>, steps: seq<Step>, i: nat)
    requires IsRun(ss, steps) && i < |ss| && ss[i].main.Ended?
    ensures !ss[i].p.active && ss[i].p.attached == Fences(ss[i].p.log) && Distinct(Fences(ss[i].p.log))
  {
    RunKeeps(ss, steps, i);
  }

  /** A timed wait of the watchdog that ends with an error, or with a time-out when no fence is active any
      more. */
  predicate LateWake(s: State, a: Step) {
    a.Watch? && s.watch.Timing? && !a.r.Signalled? && !(a.r.TimedOut? && s.p.active)
  }

  ghost predicate SomeLateWake(ss: seq<State>, steps: seq<Step>, n: nat)
    requires |ss| == |steps| + 1 && n <= |steps|
  {
    exists j :: 0 <= j < n && LateWake(ss[j], steps[j])
  }

  lemma LateStep(s: State, a: Step, t: State)
    requires Next(s, a, t)
    ensures t.p.late <==> s.p.late || LateWake(s, a)
  {}

  lemma {:induction false} LateExactly(ss: seq<State>, steps: seq<Step>, n: nat)
    requires IsRun(ss, steps) && n <= |steps|
    ensures ss[n].p.late <==> SomeLateWake(ss, steps, n)
  {
    if n > 0 {
      LateExactly(ss, steps, n - 1);
      LateStep(ss[n - 1], steps[n - 1], ss[n]);
    }
  }

  /** release() returns true exactly when no fence so far was forced or failed to signal and no timed
      wait of the run so far ended late. */
  lemma ReleaseResult(ss: seq<State>, steps: seq<Step>, i: nat)
    requires IsRun(ss, steps) && i < |steps| && steps[i].ReleaseFence?
    ensures ss[i + 1].result == Some(Clean(ss[i + 1].p.log) && !SomeLateWake(ss, steps, i))
  {
    RunKeeps(ss, steps, i + 1);
    LateExactly(ss, steps, i);
  }

  /** A false result need not mean a forced or failed fence: a timed wait that reports its time-out
      after main has released the fence already marks the producer failed. */
  lemma LateWakeSpoilsResult() returns (ss: seq<State>, steps: seq<Step>)
    ensures IsRun(ss, steps) && ss[|ss| - 1].result == Some(false)
    ensures Clean(ss[|ss| - 1].p.log) && |ss[|ss| - 1].p.log| == 2
  {
    var s0 := Start();
    var s1 := s0.(p := Attached(s0.p, 7), main := Measuring);
    var s2 := s1.(watch := Timing);
    var s3 := s2.(p := Released(s2.p, false, true), main := Between, result := Some(true));
    var s4 := s3.(p := s3.p.(failed := true, late := true), watch := Sleeping);
    var s5 := s4.(p := Attached(s4.p, 8), main := Measuring);
    var s6 := s5.(p := Released(s5.p, false, true), main := CleaningUp, result := Some(false));
    steps := [AttachFence(Some(7)), Watch(Signalled, true, true), ReleaseFence(true), Watch(TimedOut, true, true),
              AttachFence(Some(8)), ReleaseFence(true)];
    ss := [s0, s1, s2, s3, s4, s5, s6];
    assert Next(s0, steps[0], s1) && Next(s1, steps[1], s2) && Next(s2, steps[2], s3);
    assert Next(s3, steps[3], s4) && Next(s4, steps[4], s5) && Next(s5, steps[5], s6);
  }
}
