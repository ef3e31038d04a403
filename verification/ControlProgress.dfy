/** A reader that meets no live publisher returns within one turn of its loop, whatever state
    earlier publishers left behind; a publisher that has the lock completes its publish. */
module ControlProgress {
  import opened ControlModel
  import opened ControlLock
  import opened Options

  /** Nobody is publishing or about to. */
  ghost predicate NoPublisher(s: State) {
    s.exclusive.None? && forall p :: p in s.handles ==> !s.handles[p].pc.Locking?
  }

  /** A step that starts no publish and, for `p`, neither a new read nor a failed lock probe nor
      its death. */
  predicate Undisturbed(step: Step, p: nat) {
    && !step.Publish?
    && (step.p == p ==> !step.Open? && !step.Crash? && !step.Read? && !step.ProbeFailed?)
  }

  /** What `p` has read of the counter still stands. */
  predicate Current(s: State, pc: Pc) {
    match pc
    case Copying(before, _) => before == s.counter
    case Probing(odd) => odd == s.counter
    case Holding(odd) => odd == s.counter
    case Resuming => false
    case _ => true
  }

  /** Steps a reader still needs. */
  function Remaining(pc: Pc): nat {
    match pc
    case AtHead => PAYLOAD_LEN + 4
    case Probing(_) => PAYLOAD_LEN + 3
    case Holding(_) => PAYLOAD_LEN + 2
    case Copying(_, buf) => if |buf| <= PAYLOAD_LEN then PAYLOAD_LEN - |buf| + 1 else 0
    case Salvaging(_, buf) => if |buf| <= PAYLOAD_LEN then PAYLOAD_LEN - |buf| + 1 else 0
    case _ => 0
  }

  function OwnSteps(steps: seq<Step>, p: nat): nat {
    if steps == [] then 0 else (if steps[0].p == p then 1 else 0) + OwnSteps(steps[1..], p)
  }

  lemma OtherStepKeepsQuiet(s: State, step: Step, p: nat)
    requires LockInv(s) && NoPublisher(s) && p in s.handles && Current(s, s.handles[p].pc)
    requires Enabled(s, step) && Undisturbed(step, p) && step.p != p
    ensures var t := Apply(s, step);
            NoPublisher(t) && p in t.handles && t.handles[p] == s.handles[p] && Current(t, t.handles[p].pc)
  {
    if step.p in s.handles {
      assert HandleOk(s.counter, s.mem, s.exclusive == Some(step.p), step.p in s.shared, s.handles[step.p].pc);
    }
  }

  lemma OwnStepAdvances(s: State, step: Step, p: nat)
    requires LockInv(s) && NoPublisher(s) && p in s.handles && Current(s, s.handles[p].pc)
    requires Enabled(s, step) && Undisturbed(step, p) && step.p == p
    ensures var t := Apply(s, step);
            && NoPublisher(t) && p in t.handles && Current(t, t.handles[p].pc)
            && Remaining(t.handles[p].pc) < Remaining(s.handles[p].pc) && !t.handles[p].pc.AtHead?
            && |t.handles[p].answers| == |s.handles[p].answers| + if t.handles[p].pc.Idle? then 1 else 0
  {
    assert HandleOk(s.counter, s.mem, s.exclusive == Some(p), p in s.shared, s.handles[p].pc);
  }

  /** With no live publisher, a reader at the loop head needs at most one turn of the loop: its
      own steps are bounded however the other readers are interleaved, it is never back at the
      head, and it returns exactly one answer. */
  lemma {:induction false} QuietReadReturns(s: State, steps: seq<Step>, p: nat)
    requires LockInv(s) && NoPublisher(s) && p in s.handles && Current(s, s.handles[p].pc)
    requires CanRun(s, steps) && forall i :: 0 <= i < |steps| ==> Undisturbed(steps[i], p)
    ensures p in Run(s, steps).handles
    ensures var t := Run(s, steps);
            && LockInv(t) && NoPublisher(t) && Current(t, t.handles[p].pc)
            && Remaining(t.handles[p].pc) + OwnSteps(steps, p) <= Remaining(s.handles[p].pc)
            && (OwnSteps(steps, p) > 0 ==> !t.handles[p].pc.AtHead?)
            && (OwnSteps(steps, p) == 0 ==> t.handles[p] == s.handles[p])
            && |t.handles[p].answers| ==
               |s.handles[p].answers| + if OwnSteps(steps, p) > 0 && t.handles[p].pc.Idle? then 1 else 0
    decreases |steps|
  {
    if steps != [] {
      var t := Apply(s, steps[0]);
      StepKeepsLockInv(s, steps[0]);
      if steps[0].p == p {
        OwnStepAdvances(s, steps[0], p);
      } else {
        OtherStepKeepsQuiet(s, steps[0], p);
      }
      QuietReadReturns(t, steps[1..], p);
    }
  }

  /** Until it has returned, such a reader always has a step to take. */
  lemma QuietReadIsNotStuck(s: State, p: nat) returns (step: Step)
    requires LockInv(s) && NoPublisher(s) && p in s.handles && Current(s, s.handles[p].pc)
    requires !s.handles[p].pc.Idle?
    ensures step.p == p && Enabled(s, step) && Undisturbed(step, p)
  {
    var pc := s.handles[p].pc;
    assert HandleOk(s.counter, s.mem, s.exclusive == Some(p), p in s.shared, pc);
    match pc
    case AtHead => step := LoadHead(p);
    case Probing(_) => step := ProbeTaken(p);
    case Holding(_) => step := Reload(p);
    case Copying(_, buf) => step := if |buf| < PAYLOAD_LEN then CopyByte(p) else Recheck(p);
    case Salvaging(_, buf) => step := if |buf| < PAYLOAD_LEN then SalvageByte(p) else Release(p);
    case _ => step := Release(p);
  }

  // ------------------------------------------------------------------ publishers

  /** A step that, if it is `p`'s, is neither its death nor a failure inside the publish, nor an exchange
      that fails for no reason, nor the start of another call. */
  predicate Diligent(step: Step, p: nat) {
    step.p == p ==> !step.Open? && !step.Crash? && !step.Panic? && !step.MarkMissed? && !step.Publish? && !step.Read?
  }

  /** Steps a publisher still needs once it has the lock. */
  function PublishSteps(pc: Pc): nat {
    match pc
    case Beginning(req) => req.StoreCount() + 4
    case Marking(req, _) => req.StoreCount() + 3
    case Writing(req, done) => if done <= req.StoreCount() then req.StoreCount() - done + 2 else 0
    case Unlocking => 1
    case _ => 0
  }

  /** `p` is publishing `req` since `s`: still at it, with nothing published meanwhile, or done, with its
      payload the next one published. */
  ghost predicate Publishing(s: State, t: State, p: nat, req: Request)
    requires |s.published| >= 1
  {
    && LockInv(t) && p in t.handles
    && if t.handles[p].pc.Beginning? || t.handles[p].pc.Marking? || t.handles[p].pc.Writing?
       then t.handles[p].pc.req == req && t.published == s.published
       else
         && (t.handles[p].pc.Unlocking? || t.handles[p].pc.Idle?)
         && s.published + [Promised(s, req)] <= t.published
  }

  lemma OwnStepPublishes(s: State, t: State, p: nat, req: Request, step: Step, t': State)
    requires |s.published| >= 1 && Publishing(s, t, p, req) && Enabled(t, step) && Diligent(step, p) && step.p == p
    requires t' == Apply(t, step)
    ensures Publishing(s, t', p, req) && PublishSteps(t'.handles[p].pc) < PublishSteps(t.handles[p].pc)
  {
    StepKeepsLockInv(t, step);
    OwnStepIs(t, p, step, t');
    assert step.MarkEven? ==> Promised(t, req) == Promised(s, req);
  }

  lemma OwnStepIs(s: State, p: nat, step: Step, t: State)
    requires LockInv(s) && p in s.handles && (InPublish(s.handles[p].pc) || s.handles[p].pc.Idle?)
    requires Enabled(s, step) && Diligent(step, p) && step.p == p && t == Apply(s, step)
    ensures p in t.handles && PublishSteps(t.handles[p].pc) < PublishSteps(s.handles[p].pc)
    ensures var pc, pc' := s.handles[p].pc, t.handles[p].pc;
            && (step.MarkEven? ==> pc.Writing? && pc'.Unlocking? && t.published == s.published + [Promised(s, pc.req)])
            && (!step.MarkEven? ==> t.published == s.published)
            && (step.Unlock? ==> pc.Unlocking? && pc'.Idle?)
            && (!step.MarkEven? && !step.Unlock? ==>
                  !pc.Unlocking? && (pc'.Marking? || pc'.Writing?) && pc'.req == pc.req)
  {
    assert HandleOk(s.counter, s.mem, s.exclusive == Some(p), p in s.shared, s.handles[p].pc);
  }

  lemma OtherStepKeepsPublishing(s: State, t: State, p: nat, req: Request, step: Step, t': State)
    requires |s.published| >= 1 && Publishing(s, t, p, req) && Enabled(t, step) && step.p != p
    requires t' == Apply(t, step)
    ensures Publishing(s, t', p, req) && t'.handles[p] == t.handles[p]
  {
    StepKeepsLockInv(t, step);
    OtherStepGrows(t, p, step, t');
    if InPublish(t.handles[p].pc) {
      assert HandleOk(t.counter, t.mem, t.exclusive == Some(p), p in t.shared, t.handles[p].pc);
      OtherStepKeepsHolder(t, p, step, t');
    }
  }

  lemma OtherStepGrows(s: State, p: nat, step: Step, t: State)
    requires LockInv(s) && p in s.handles && Enabled(s, step) && step.p != p && t == Apply(s, step)
    ensures s.published <= t.published && p in t.handles && t.handles[p] == s.handles[p]
  {
  }

  lemma {:induction false} RunPublishes(s: State, t: State, p: nat, req: Request, steps: seq<Step>)
    requires |s.published| >= 1 && Publishing(s, t, p, req) && CanRun(t, steps)
    requires forall i :: 0 <= i < |steps| ==> Diligent(steps[i], p)
    ensures Publishing(s, Run(t, steps), p, req)
    ensures PublishSteps(Run(t, steps).handles[p].pc) + OwnSteps(steps, p) <= PublishSteps(t.handles[p].pc)
    decreases |steps|
  {
    if steps != [] {
      var t' := Apply(t, steps[0]);
      if steps[0].p == p {
        OwnStepPublishes(s, t, p, req, steps[0], t');
      } else {
        OtherStepKeepsPublishing(s, t, p, req, steps[0], t');
      }
      RunPublishes(s, t', p, req, steps[1..]);
    }
  }

  /** A publisher that has the lock and neither dies nor fails completes its publish within a bounded
      number of its own steps, however the others interleave: when it has taken them, its payload is
      the next one published. */
  lemma PublishCompletes(s: State, p: nat, req: Request, steps: seq<Step>, t: State)
    requires LockInv(s) && p in s.handles && s.handles[p].pc == Beginning(req)
    requires CanRun(s, steps) && t == Run(s, steps) && forall i :: 0 <= i < |steps| ==> Diligent(steps[i], p)
    ensures p in t.handles && OwnSteps(steps, p) <= req.StoreCount() + 4
    ensures OwnSteps(steps, p) == req.StoreCount() + 4 ==> t.handles[p].pc.Idle?
    ensures t.handles[p].pc.Idle? ==>
              |t.published| > |s.published| && t.published[|s.published|] == Promised(s, req)
  {
    RunPublishes(s, s, p, req, steps);
    assert HandleOk(t.counter, t.mem, t.exclusive == Some(p), p in t.shared, t.handles[p].pc);
  }

  /** Until then it always has such a step to take; and one that waits for the lock can take it
      whenever it is free. */
  lemma PublisherIsNotStuck(s: State, p: nat) returns (step: Step)
    requires LockInv(s) && p in s.handles
    requires InPublish(s.handles[p].pc) || (s.handles[p].pc.Locking? && s.exclusive.None? && s.shared == {})
    ensures step.p == p && Enabled(s, step) && Diligent(step, p)
  {
    var pc := s.handles[p].pc;
    assert HandleOk(s.counter, s.mem, s.exclusive == Some(p), p in s.shared, pc);
    if pc.Locking? {
      step := TakeLock(p);
    } else if pc.Beginning? {
      step := LoadCounter(p);
    } else if pc.Marking? {
      step := MarkOdd(p);
    } else if pc.Writing? {
      step := if pc.done < pc.req.StoreCount() then Store(p) else MarkEven(p);
    } else {
      step := Unlock(p);
    }
  }
}
