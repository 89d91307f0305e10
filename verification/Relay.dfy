/** The GPIO door relay and its auto-relock timer.

    Unlock writes the pin and only then takes the mutex to replace the timer; the timer's callback writes the pin
    without the mutex; Close stops the timer under the mutex and then writes the pin. Each of these pieces is
    one step, and a run is any interleaving of steps of any number of calls. */
module Relay {
  import opened Wrappers

  /** A timer made by time.AfterFunc: Stop works only while it is armed; once fired, its callback will write. */
  datatype Timer = Armed | Fired | Stopped | Finished

  datatype State = State(
    on: bool,                    // the pin is low: the door is unlocked
    relockTimer: Option<nat>,
    timers: seq<Timer>,
    arming: nat,                 // Unlock calls between their write and their arming of a timer
    closing: nat)                // Close calls between their stop and their write

  datatype Step =
    | UnlockWrite(ok: bool)
    | UnlockArm
    | Fire(timer: nat)
    | CallbackWrite(timer: nat, ok: bool)
    | CloseStop
    | CloseWrite(ok: bool)

  const Initial := State(false, None, [], 0, 0)

  function Stop(s: State): seq<Timer> {
    if s.relockTimer.Some? && s.relockTimer.value < |s.timers| && s.timers[s.relockTimer.value] == Armed
    then s.timers[s.relockTimer.value := Stopped] else s.timers
  }

  /** A step that no call or timer is ready for changes nothing. */
  function Next(s: State, step: Step): State {
    match step
    case UnlockWrite(ok) => if ok then s.(on := true, arming := s.arming + 1) else s
    case UnlockArm =>
      if s.arming == 0 then s
      else s.(timers := Stop(s) + [Armed], relockTimer := Some(|s.timers|), arming := s.arming - 1)
    case Fire(t) =>
      if t < |s.timers| && s.timers[t] == Armed then s.(timers := s.timers[t := Fired]) else s
    case CallbackWrite(t, ok) =>
      if t < |s.timers| && s.timers[t] == Fired
      then s.(timers := s.timers[t := Finished], on := if ok then false else s.on) else s
    case CloseStop => s.(timers := Stop(s), closing := s.closing + 1)
    case CloseWrite(ok) =>
      if s.closing == 0 then s
      else s.(closing := s.closing - 1, on := if ok then false else s.on)
  }

  function After(run: seq<Step>): State {
    if run == [] then Initial else Next(After(run[..|run| - 1]), run[|run| - 1])
  }

  /** Someone is still going to lock the door: a timer armed or fired, an Unlock about to arm one, or a Close
      about to write. */
  predicate Pending(s: State) {
    s.arming > 0 || s.closing > 0 || exists t :: 0 <= t < |s.timers| && s.timers[t] in {Armed, Fired}
  }

  /** An unlocked door that nobody is going to lock. */
  predicate Stuck(s: State) {
    s.on && !Pending(s)
  }

  /** Only the timer in the field can be armed: every Unlock stops the one it replaces. */
  predicate OneArmed(s: State) {
    && (s.relockTimer.Some? ==> s.relockTimer.value < |s.timers|)
    && (forall t :: 0 <= t < |s.timers| && s.timers[t] == Armed ==> s.relockTimer == Some(t))
  }

  predicate FailedLock(step: Step) {
    (step.CallbackWrite? || step.CloseWrite?) && !step.ok
  }

  lemma StepKeepsOneArmed(s: State, step: Step)
    requires OneArmed(s)
    ensures OneArmed(Next(s, step))
  {
  }

  lemma {:induction false} AtMostOneArmed(run: seq<Step>)
    ensures OneArmed(After(run))
    ensures var timers := After(run).timers;
            forall t, u :: 0 <= t < |timers| && 0 <= u < |timers| && timers[t] == Armed == timers[u] ==> t == u
  {
    if run != [] {
      AtMostOneArmed(run[..|run| - 1]);
      StepKeepsOneArmed(After(run[..|run| - 1]), run[|run| - 1]);
    }
  }

  function CountOf(run: seq<Step>, p: Step -> bool): nat {
    if run == [] then 0 else CountOf(run[..|run| - 1], p) + if p(run[|run| - 1]) then 1 else 0
  }

  predicate Wrote(step: Step) {
    step.UnlockWrite? && step.ok
  }

  lemma StepAccounts(s: State, step: Step)
    ensures var s' := Next(s, step);
            && |s'.timers| + s'.arming == |s.timers| + s.arming + (if Wrote(step) then 1 else 0)
            && (if step.CloseStop? then s'.closing == s.closing + 1 else s.closing - 1 <= s'.closing <= s.closing)
            && (s'.closing < s.closing ==> step.CloseWrite?)
  {
  }

  /** Calls are accounted for: every Unlock that wrote has a timer or is still about to arm one, and the Close calls
      under way are no more than were begun and no fewer than those begun less the writes. */
  lemma {:induction false} CallsAccountedFor(run: seq<Step>)
    ensures |After(run).timers| + After(run).arming == CountOf(run, Wrote)
    ensures CountOf(run, (x: Step) => x.CloseStop?) - CountOf(run, (x: Step) => x.CloseWrite?) <= After(run).closing
    ensures After(run).closing <= CountOf(run, (x: Step) => x.CloseStop?)
  {
    hide Next, Wrote;
    if run != [] {
      CallsAccountedFor(run[..|run| - 1]);
      StepAccounts(After(run[..|run| - 1]), run[|run| - 1]);
    }
  }

  lemma StillPending(s: State, t: nat)
    requires t < |s.timers| && s.timers[t] in {Armed, Fired}
    ensures Pending(s)
  {
  }

  /** Only a failed write can leave the door unlocked with nobody going to lock it. */
  lemma StepSafe(s: State, step: Step)
    requires OneArmed(s) && !Stuck(s) && !FailedLock(step)
    ensures !Stuck(Next(s, step))
  {
    var s' := Next(s, step);
    match step
    case UnlockWrite(ok) =>
    case UnlockArm =>
      if s.arming > 0 {
        StillPending(s', |s.timers|);
      }
    case Fire(t) =>
      if s' != s {
        StillPending(s', t);
      }
    case CallbackWrite(t, ok) =>
    case CloseStop =>
    case CloseWrite(ok) =>
  }

  predicate LocksSucceed(run: seq<Step>) {
    forall i :: 0 <= i < |run| ==> !FailedLock(run[i])
  }

  /** In every interleaving in which the locking writes succeed, an unlocked door has someone about to lock it;
      so with nothing pending the door is locked. */
  lemma {:induction false} NeverStuck(run: seq<Step>)
    requires LocksSucceed(run)
    ensures !Stuck(After(run))
  {
    if run != [] {
      NeverStuck(run[..|run| - 1]);
      AtMostOneArmed(run[..|run| - 1]);
      StepSafe(After(run[..|run| - 1]), run[|run| - 1]);
    }
  }

  /** The condition on writes is needed: the failed write of the only pending callback or Close leaves an
      unlocked door stuck. */
  lemma FailureStrands(s: State, step: Step)
    requires OneArmed(s) && !Stuck(s) && s.on
    ensures Stuck(Next(s, step)) <==>
              || (step.CloseWrite? && !step.ok && s.closing == 1 && !Pending(s.(closing := 0)))
              || (step.CallbackWrite? && !step.ok && step.timer < |s.timers| && s.timers[step.timer] == Fired
                  && !Pending(s.(timers := s.timers[step.timer := Finished])))
  {
    if !FailedLock(step) {
      StepSafe(s, step);
    }
  }

  /** And it happens: one unlock whose callback fails to write leaves the door open, with nothing armed, fired or
      under way. */
  lemma StrandedReachably()
    ensures var s := After([UnlockWrite(true), UnlockArm, Fire(0), CallbackWrite(0, false)]);
            s.on && s.timers == [Finished] && s.arming == 0 == s.closing && Stuck(s)
  {
    hide After;
    var one, two := [UnlockWrite(true)], [UnlockWrite(true), UnlockArm];
    var three := two + [Fire(0)];
    AfterNothing();
    AfterStep(one, [], UnlockWrite(true));
    assert After(one) == State(true, None, [], 1, 0);
    AfterStep(two, one, UnlockArm);
    assert After(two) == State(true, Some(0), [Armed], 0, 0);
    AfterStep(three, two, Fire(0));
    assert After(three) == State(true, Some(0), [Fired], 0, 0);
    AfterStep([UnlockWrite(true), UnlockArm, Fire(0), CallbackWrite(0, false)], three, CallbackWrite(0, false));
  }

  lemma AfterNothing()
    ensures After([]) == Initial
  {
  }

  predicate NoUnlock(run: seq<Step>) {
    forall i :: 0 <= i < |run| ==> !run[i].UnlockWrite?
  }

  function From(s: State, run: seq<Step>): State {
    if run == [] then s else Next(From(s, run[..|run| - 1]), run[|run| - 1])
  }

  lemma StuckStep(s: State, step: Step)
    requires Stuck(s)
    ensures Next(s, step) == s <==> !step.CloseStop? && step != UnlockWrite(true)
  {
    if step.UnlockWrite? && step.ok {
      assert Next(s, step).arming == s.arming + 1;
    } else if step.CloseStop? {
      assert Next(s, step).closing == s.closing + 1;
    }
  }

  /** Nothing but the write of another Unlock or a call of Close changes a stuck door: in any run without these
      nothing happens at all. */
  lemma {:induction false} StuckStays(s: State, run: seq<Step>)
    requires Stuck(s) && forall i :: 0 <= i < |run| ==> !run[i].CloseStop? && run[i] != UnlockWrite(true)
    ensures From(s, run) == s
  {
    hide Stuck, Next;
    if run != [] {
      var n := |run| - 1;
      StuckStays(s, run[..n]);
      StuckStep(s, run[n]);
    }
  }

  /** A locked door stays locked until an Unlock writes, whatever timers and Close calls are still under way;
      in particular a Close that wrote leaves the door locked unless an Unlock writes after it. */
  lemma {:induction false} LockedStaysLocked(s: State, run: seq<Step>)
    requires !s.on && NoUnlock(run)
    ensures !From(s, run).on
  {
    if run != [] {
      LockedStaysLocked(s, run[..|run| - 1]);
    }
  }

  lemma {:induction false} CloseLeavesLocked(s: State, run: seq<Step>)
    requires s.closing > 0 && NoUnlock(run)
    ensures !From(Next(s, CloseWrite(true)), run).on
  {
    LockedStaysLocked(Next(s, CloseWrite(true)), run);
  }

  // ---- How long an unlock lasts ----

  /** No timer fires and no Close is called; everything else may happen: other Unlock calls, the callbacks of
      timers that have fired, and the writes of Close calls under way. */
  predicate NoFireNoClose(run: seq<Step>) {
    forall i :: 0 <= i < |run| ==> !run[i].Fire? && !run[i].CloseStop?
  }

  /** No lock is on its way: no timer has fired with its write to come, and no Close is about to write. */
  predicate NoLockComing(s: State) {
    s.closing == 0 && forall t :: 0 <= t < |s.timers| ==> s.timers[t] != Fired
  }

  lemma {:induction false} StaysUnlocked(s: State, run: seq<Step>)
    requires s.on && NoLockComing(s) && NoFireNoClose(run)
    ensures From(s, run).on && NoLockComing(From(s, run))
  {
    if run != [] {
      StaysUnlocked(s, run[..|run| - 1]);
    }
  }

  /** An Unlock that has armed its timer keeps the door unlocked until a timer fires or a Close is called, in
      every such run, exactly when no lock was on its way: replacing a timer does not recall its callback, nor a
      Close that has yet to write. */
  lemma UnlockLastsUnlessOvertaken(s: State)
    requires s.on && s.arming > 0
    ensures var armed := Next(s, UnlockArm);
            NoLockComing(armed) <==> forall run :: NoFireNoClose(run) ==> From(armed, run).on
  {
    var armed := Next(s, UnlockArm);
    if NoLockComing(armed) {
      forall run | NoFireNoClose(run)
        ensures From(armed, run).on
      {
        StaysUnlocked(armed, run);
      }
    } else if armed.closing > 0 {
      Overtakes(armed, CloseWrite(true));
    } else {
      var t :| 0 <= t < |armed.timers| && armed.timers[t] == Fired;
      Overtakes(armed, CallbackWrite(t, true));
    }
  }

  lemma Overtakes(s: State, step: Step)
    requires !step.Fire? && !step.CloseStop? && !Next(s, step).on
    ensures exists run :: NoFireNoClose(run) && !From(s, run).on
  {
    var run := [step];
    assert run[..0] == [];
    assert NoFireNoClose(run) && !From(s, run).on;
  }

  /** Both ways of being overtaken can be reached: the first timer fires between the write of a second Unlock and
      its arming, and a Close has stopped the timer when an Unlock writes. */
  lemma OvertakenReachably()
    ensures var fired := After([UnlockWrite(true), UnlockArm, Fire(0), UnlockWrite(true)]);
            fired.on && fired.arming > 0 && !NoLockComing(Next(fired, UnlockArm))
    ensures var closing := After([CloseStop, UnlockWrite(true)]);
            closing.on && closing.arming > 0 && !NoLockComing(Next(closing, UnlockArm))
  {
    hide After;
    var one, two := [UnlockWrite(true)], [UnlockWrite(true), UnlockArm];
    var three, four := two + [Fire(0)], [UnlockWrite(true), UnlockArm, Fire(0), UnlockWrite(true)];
    AfterNothing();
    AfterStep(one, [], UnlockWrite(true));
    assert After(one) == State(true, None, [], 1, 0);
    AfterStep(two, one, UnlockArm);
    assert After(two) == State(true, Some(0), [Armed], 0, 0);
    AfterStep(three, two, Fire(0));
    AfterStep(four, three, UnlockWrite(true));
    assert After(four) == State(true, Some(0), [Fired], 1, 0);
    assert Next(After(four), UnlockArm).timers[0] == Fired;
    AfterStep([CloseStop], [], CloseStop);
    AfterStep([CloseStop, UnlockWrite(true)], [CloseStop], UnlockWrite(true));
  }

  lemma AfterStep(whole: seq<Step>, run: seq<Step>, step: Step)
    requires whole == run + [step]
    ensures After(whole) == Next(After(run), step)
  {
    assert whole[..|whole| - 1] == run;
  }

  // ---- The driver ----

  class GpioRelay {
    var pinLow: bool
    var relockTimer: Option<nat>
    var timers: seq<Timer>         // every timer made so far
    ghost var arming: nat
    ghost var closing: nat

    ghost function Now(): State
      reads this
    {
      State(pinLow, relockTimer, timers, arming, closing)
    }

    constructor ()
      ensures Now() == Initial
    {
      pinLow, relockTimer, timers, arming, closing := false, None, [], 0, 0;
    }

    method StopTimer()
      modifies this`timers
      ensures timers == Stop(old(Now()))
    {
      if relockTimer.Some? && relockTimer.value < |timers| && timers[relockTimer.value] == Armed {
        timers := timers[relockTimer.value := Stopped];
      }
    }

    /** Unlock up to the mutex; `written` is the outcome of writing the pin, and of this part of the call. */
    method BeginUnlock(written: bool) returns (ok: bool)
      modifies this
      ensures ok == written && Now() == Next(old(Now()), UnlockWrite(written))
    {
      if !written {
        return false;
      }
      pinLow := true;
      arming := arming + 1;
      return true;
    }

    /** The rest of Unlock, under the mutex. */
    method FinishUnlock()
      requires arming > 0
      modifies this
      ensures Now() == Next(old(Now()), UnlockArm)
    {
      StopTimer();
      relockTimer := Some(|timers|);
      timers := timers + [Armed];
      arming := arming - 1;
    }

    method TimerFires(t: nat)
      requires t < |timers| && timers[t] == Armed
      modifies this
      ensures Now() == Next(old(Now()), Fire(t))
    {
      timers := timers[t := Fired];
    }

    method Callback(t: nat, written: bool)
      requires t < |timers| && timers[t] == Fired
      modifies this
      ensures Now() == Next(old(Now()), CallbackWrite(t, written))
    {
      if written {
        pinLow := false;
      }
      timers := timers[t := Finished];
    }

    method BeginClose()
      modifies this
      ensures Now() == Next(old(Now()), CloseStop)
    {
      StopTimer();
      closing := closing + 1;
    }

    method FinishClose(written: bool)
      requires closing > 0
      modifies this
      ensures Now() == Next(old(Now()), CloseWrite(written))
    {
      if written {
        pinLow := false;
      }
      closing := closing - 1;
    }
  }
}
