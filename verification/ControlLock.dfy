/** What every step keeps about the publish lock and the parity of the counter, whatever the
    publishers do and wherever they die. */
module ControlLock {
  import opened Bytes
  import opened ControlModel
  import opened Options

  /** The first `k` stores of `req` are in the block. */
  ghost predicate StoresDone(mem: seq<byte>, req: Request, k: nat)
    requires |mem| == PAYLOAD_LEN && req.Valid() && k <= req.StoreCount()
  {
    forall j :: 0 <= j < k ==> mem[req.StoreAt(j)] == req.StoreByte(j)
  }

  predicate InPublish(pc: Pc) {
    pc.Beginning? || pc.Marking? || pc.Writing? || pc.Unlocking?
  }

  predicate SharesLock(pc: Pc) {
    pc.Holding? || pc.Salvaging? || pc.Resuming?
  }

  /** What holds of a handle at `pc`, given the counter, the payload bytes and the locks it
      holds. */
  ghost predicate HandleOk(counter: nat, mem: seq<byte>, exclusive: bool, shared: bool, pc: Pc)
    requires |mem| == PAYLOAD_LEN
  {
    && (InPublish(pc) <==> exclusive)
    && (SharesLock(pc) <==> shared)
    && match pc
       case Locking(req) => req.Valid()
       case Beginning(req) => req.Valid()
       case Marking(req, current) => req.Valid() && current == counter && !IsOdd(counter)
       case Writing(req, done) =>
         req.Valid() && done <= req.StoreCount() && IsOdd(counter) && StoresDone(mem, req, done)
       case Unlocking => !IsOdd(counter)
       case Copying(before, buf) =>
         && !IsOdd(before) && before <= counter && |buf| <= PAYLOAD_LEN
         && (before == counter ==> buf == mem[..|buf|])
       case Probing(odd) => IsOdd(odd) && odd <= counter
       case Holding(odd) => IsOdd(odd) && odd <= counter
       case Salvaging(odd, buf) => IsOdd(odd) && odd == counter && |buf| <= PAYLOAD_LEN && buf == mem[..|buf|]
       case _ => true
  }

  /** At most one exclusive holder, never beside shared ones, and every holder is alive. */
  ghost predicate LocksOk(s: State) {
    && s.shared <= s.handles.Keys
    && (s.exclusive.Some? ==> s.exclusive.value in s.handles && s.shared == {})
  }

  /** Two counter ticks per completed publish; the counter is odd between them. */
  ghost predicate CounterOk(s: State) {
    && |s.published| >= 1
    && (s.counter == 2 * (|s.published| - 1) || s.counter == 2 * (|s.published| - 1) + 1)
  }

  ghost predicate LockInv(s: State) {
    && |s.mem| == PAYLOAD_LEN && CounterOk(s) && LocksOk(s)
    && forall p :: p in s.handles ==> HandleOk(s.counter, s.mem, s.exclusive == Some(p), p in s.shared, s.handles[p].pc)
  }

  lemma FreshLockInv()
    ensures LockInv(Fresh())
  {
  }

  // ------------------------------------------------------------------ one step

  /** A step that touches neither the counter nor the payload, and only `p`'s handle and
      locks, keeps everything that holds of the other handles. */
  lemma QuietStep(s: State, t: State, p: nat)
    requires LockInv(s) && p in s.handles
    requires t.counter == s.counter && t.mem == s.mem && t.published == s.published
    requires p in t.handles && t.handles == s.handles[p := t.handles[p]]
    requires forall q :: q != p ==>
               (t.exclusive == Some(q) <==> s.exclusive == Some(q)) && (q in t.shared <==> q in s.shared)
    requires LocksOk(t) && HandleOk(t.counter, t.mem, t.exclusive == Some(p), p in t.shared, t.handles[p].pc)
    ensures LockInv(t)
  {
    forall q | q in t.handles
      ensures HandleOk(t.counter, t.mem, t.exclusive == Some(q), q in t.shared, t.handles[q].pc)
    {
      if q != p {
        assert HandleOk(s.counter, s.mem, s.exclusive == Some(q), q in s.shared, s.handles[q].pc);
      }
    }
  }

  lemma ReaderStepKeepsLockInv(s: State, step: Step)
    requires LockInv(s) && Enabled(s, step)
    requires step.Read? || step.LoadHead? || step.Recheck? || step.ProbeRefused? || step.ProbeFailed?
    ensures LockInv(Apply(s, step))
  {
    ReaderStepOk(s, step, Apply(s, step));
    QuietStep(s, Apply(s, step), step.p);
  }

  lemma ReaderStepOk(s: State, step: Step, t: State)
    requires LockInv(s) && Enabled(s, step) && t == Apply(s, step)
    requires step.Read? || step.LoadHead? || step.Recheck? || step.ProbeRefused? || step.ProbeFailed?
    ensures t == s.(handles := s.handles[step.p := t.handles[step.p]])
    ensures var p := step.p;
            HandleOk(t.counter, t.mem, t.exclusive == Some(p), p in t.shared, t.handles[p].pc)
  {
    var p := step.p;
    assert HandleOk(s.counter, s.mem, s.exclusive == Some(p), p in s.shared, s.handles[p].pc);
  }

  lemma CopyStepKeepsLockInv(s: State, step: Step)
    requires LockInv(s) && Enabled(s, step) && (step.CopyByte? || step.Reload? || step.SalvageByte?)
    ensures LockInv(Apply(s, step))
  {
    CopyStepOk(s, step, Apply(s, step));
    QuietStep(s, Apply(s, step), step.p);
  }

  lemma CopyStepOk(s: State, step: Step, t: State)
    requires LockInv(s) && Enabled(s, step) && (step.CopyByte? || step.Reload? || step.SalvageByte?)
    requires t == Apply(s, step)
    ensures t == MoveTo(s, step.p, t.handles[step.p].pc)
    ensures var p := step.p;
            HandleOk(t.counter, t.mem, t.exclusive == Some(p), p in t.shared, t.handles[p].pc)
  {
    var p := step.p;
    assert HandleOk(s.counter, s.mem, s.exclusive == Some(p), p in s.shared, s.handles[p].pc);
  }

  lemma SharedLockStepKeepsLockInv(s: State, step: Step)
    requires LockInv(s) && Enabled(s, step)
    requires step.ProbeTaken? || step.Release?
    ensures LockInv(Apply(s, step))
  {
    var p := step.p;
    assert HandleOk(s.counter, s.mem, s.exclusive == Some(p), p in s.shared, s.handles[p].pc);
    QuietStep(s, Apply(s, step), p);
  }

  lemma PublisherStepKeepsLockInv(s: State, step: Step)
    requires LockInv(s) && Enabled(s, step)
    requires step.Publish? || step.TakeLock? || step.LoadCounter? || step.MarkMissed? || step.Unlock? || step.Panic?
    ensures LockInv(Apply(s, step))
  {
    var p := step.p;
    assert HandleOk(s.counter, s.mem, s.exclusive == Some(p), p in s.shared, s.handles[p].pc);
    QuietStep(s, Apply(s, step), p);
  }

  /** While a publisher holds the lock, no other handle holds one, and no reader's copy is
      still tied to the counter. */
  lemma OthersDoNotHold(s: State, p: nat, q: nat)
    requires LockInv(s) && s.exclusive == Some(p) && q in s.handles && q != p
    ensures !InPublish(s.handles[q].pc) && !SharesLock(s.handles[q].pc)
  {
    assert HandleOk(s.counter, s.mem, s.exclusive == Some(q), q in s.shared, s.handles[q].pc);
  }

  /** While a publisher holds the lock, no other handle's step reaches the file or the lock. */
  lemma OtherStepKeepsHolder(s: State, p: nat, step: Step, t: State)
    requires LockInv(s) && s.exclusive == Some(p) && p in s.handles && Enabled(s, step) && step.p != p
    requires t == Apply(s, step)
    ensures t.exclusive == s.exclusive && t.published == s.published && t.mem == s.mem
    ensures p in t.handles && t.handles[p] == s.handles[p]
  {
    if !step.Open? {
      OthersDoNotHold(s, p, step.p);
    }
  }

  lemma CounterStepKeepsLockInv(s: State, step: Step)
    requires LockInv(s) && Enabled(s, step) && (step.MarkOdd? || step.MarkEven?)
    ensures LockInv(Apply(s, step))
  {
    var p := step.p;
    var t := Apply(s, step);
    assert HandleOk(s.counter, s.mem, s.exclusive == Some(p), p in s.shared, s.handles[p].pc);
    forall q | q in t.handles && q != p
      ensures HandleOk(t.counter, t.mem, t.exclusive == Some(q), q in t.shared, t.handles[q].pc)
    {
      assert HandleOk(s.counter, s.mem, s.exclusive == Some(q), q in s.shared, s.handles[q].pc);
      OthersDoNotHold(s, p, q);
    }
  }

  lemma StoreStepKeepsLockInv(s: State, step: Step)
    requires LockInv(s) && Enabled(s, step) && step.Store?
    ensures LockInv(Apply(s, step))
  {
    var p := step.p;
    var t := Apply(s, step);
    var pc := s.handles[p].pc;
    assert HandleOk(s.counter, s.mem, s.exclusive == Some(p), p in s.shared, pc);
    StoreExtends(s.mem, pc.req, pc.done);
    forall q | q in t.handles && q != p
      ensures HandleOk(t.counter, t.mem, t.exclusive == Some(q), q in t.shared, t.handles[q].pc)
    {
      assert HandleOk(s.counter, s.mem, s.exclusive == Some(q), q in s.shared, s.handles[q].pc);
      OthersDoNotHold(s, p, q);
    }
  }

  /** Stores go to ever higher addresses, so none undoes an earlier one. */
  lemma StoreExtends(mem: seq<byte>, req: Request, k: nat)
    requires |mem| == PAYLOAD_LEN && req.Valid() && k < req.StoreCount() && StoresDone(mem, req, k)
    ensures req.StoreAt(k) < PAYLOAD_LEN
    ensures StoresDone(mem[req.StoreAt(k) := req.StoreByte(k)], req, k + 1)
  {
    forall j | 0 <= j < k
      ensures req.StoreAt(j) < req.StoreAt(k)
    {
    }
  }

  lemma OpenOrCrashKeepsLockInv(s: State, step: Step)
    requires LockInv(s) && Enabled(s, step) && (step.Open? || step.Crash?)
    ensures LockInv(Apply(s, step))
  {
    var t := Apply(s, step);
    forall q | q in t.handles && q != step.p
      ensures HandleOk(t.counter, t.mem, t.exclusive == Some(q), q in t.shared, t.handles[q].pc)
    {
      assert HandleOk(s.counter, s.mem, s.exclusive == Some(q), q in s.shared, s.handles[q].pc);
    }
  }

  lemma StepKeepsLockInv(s: State, step: Step)
    requires LockInv(s) && Enabled(s, step)
    ensures LockInv(Apply(s, step))
  {
    match step
    case Open(_) => OpenOrCrashKeepsLockInv(s, step);
    case Crash(_) => OpenOrCrashKeepsLockInv(s, step);
    case Publish(_, _) => PublisherStepKeepsLockInv(s, step);
    case TakeLock(_) => PublisherStepKeepsLockInv(s, step);
    case LoadCounter(_) => PublisherStepKeepsLockInv(s, step);
    case MarkMissed(_) => PublisherStepKeepsLockInv(s, step);
    case Unlock(_) => PublisherStepKeepsLockInv(s, step);
    case Panic(_) => PublisherStepKeepsLockInv(s, step);
    case MarkOdd(_) => CounterStepKeepsLockInv(s, step);
    case MarkEven(_) => CounterStepKeepsLockInv(s, step);
    case Store(_) => StoreStepKeepsLockInv(s, step);
    case ProbeTaken(_) => SharedLockStepKeepsLockInv(s, step);
    case Release(_) => SharedLockStepKeepsLockInv(s, step);
    case CopyByte(_) => CopyStepKeepsLockInv(s, step);
    case Reload(_) => CopyStepKeepsLockInv(s, step);
    case SalvageByte(_) => CopyStepKeepsLockInv(s, step);
    case _ => ReaderStepKeepsLockInv(s, step);
  }

  // ------------------------------------------------------------------ whole runs

  lemma {:induction false} RunKeepsLockInv(s: State, steps: seq<Step>)
    requires LockInv(s) && CanRun(s, steps)
    ensures LockInv(Run(s, steps))
    decreases |steps|
  {
    if steps != [] {
      StepKeepsLockInv(s, steps[0]);
      RunKeepsLockInv(Apply(s, steps[0]), steps[1..]);
    }
  }

  /** In every run, from a fresh block, of any publishers and readers: a payload byte is stored
      only by the one handle that holds the publish lock, under an odd counter; the publish
      ends from an odd counter and leaves it even, however many earlier publishers died. */
  lemma StoresAreGuarded(steps: seq<Step>, step: Step)
    requires CanRun(Fresh(), steps) && Enabled(Run(Fresh(), steps), step)
    requires step.Store? || step.MarkEven?
    ensures var s := Run(Fresh(), steps);
            && s.exclusive == Some(step.p) && s.shared == {} && IsOdd(s.counter)
            && (forall q :: q in s.handles && q != step.p ==>
                  !InPublish(s.handles[q].pc) && !SharesLock(s.handles[q].pc))
            && LockInv(s) && (step.MarkEven? ==> !IsOdd(Apply(s, step).counter))
  {
    FreshLockInv();
    RunKeepsLockInv(Fresh(), steps);
    var s := Run(Fresh(), steps);
    assert HandleOk(s.counter, s.mem, s.exclusive == Some(step.p), step.p in s.shared, s.handles[step.p].pc);
    forall q | q in s.handles && q != step.p
      ensures !InPublish(s.handles[q].pc) && !SharesLock(s.handles[q].pc)
    {
      OthersDoNotHold(s, step.p, q);
    }
  }
}
