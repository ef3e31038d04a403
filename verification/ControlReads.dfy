/** The promises the control block makes to its readers, over whole runs. */
module ControlReads {
  import opened ControlModel
  import opened ControlLock
  import opened ControlPayload
  import opened ControlSalvage
  import opened Options

  // ------------------------------------------------------------------ completed publishes

  /** The request a step completes, if any. */
  function CompletedBy(s: State, step: Step): seq<Request>
    requires Enabled(s, step)
  {
    if step.MarkEven? then [s.handles[step.p].pc.req] else []
  }

  /** The requests whose publishes completed in a run, in order. */
  ghost function Completed(s: State, steps: seq<Step>): seq<Request>
    requires |s.mem| == PAYLOAD_LEN && |s.published| >= 1 && CanRun(s, steps)
    decreases |steps|
  {
    if steps == [] then []
    else CompletedBy(s, steps[0]) + Completed(Apply(s, steps[0]), steps[1..])
  }

  /** The payload left by publishing `reqs` one after the other on a fresh block. */
  function LeftBy(reqs: seq<Request>): Payload {
    if reqs == [] then Decode(Fresh().mem)
    else
      var req := reqs[|reqs| - 1];
      Payload(req.path, req.size, if req.root.Some? then req.root.value else LeftBy(reqs[..|reqs| - 1]).root)
  }

  /** Entry `i` of `published` is what the first `i` publishes of `reqs` left. */
  ghost predicate IsHistory(published: seq<Payload>, reqs: seq<Request>) {
    |published| == |reqs| + 1 && forall i :: 0 <= i <= |reqs| ==> published[i] == LeftBy(reqs[..i])
  }

  lemma HistoryExtends(published: seq<Payload>, reqs: seq<Request>, req: Request, payload: Payload)
    requires IsHistory(published, reqs) && payload == LeftBy(reqs + [req])
    ensures IsHistory(published + [payload], reqs + [req])
  {
    forall i | 0 <= i <= |reqs| + 1
      ensures (published + [payload])[i] == LeftBy((reqs + [req])[..i])
    {
      if i <= |reqs| {
        assert (reqs + [req])[..i] == reqs[..i];
      } else {
        assert (reqs + [req])[..i] == reqs + [req];
      }
    }
  }

  lemma StepRecordsHistory(s: State, reqs: seq<Request>, step: Step)
    requires |s.mem| == PAYLOAD_LEN && |s.published| >= 1 && Enabled(s, step) && IsHistory(s.published, reqs)
    ensures IsHistory(Apply(s, step).published, reqs + CompletedBy(s, step))
  {
    if step.MarkEven? {
      var req := s.handles[step.p].pc.req;
      assert reqs[..|reqs|] == reqs && (reqs + [req])[..|reqs|] == reqs;
      HistoryExtends(s.published, reqs, req, Promised(s, req));
    } else {
      assert reqs + [] == reqs;
    }
  }

  lemma {:induction false} RunRecordsHistory(s: State, reqs: seq<Request>, steps: seq<Step>)
    requires |s.mem| == PAYLOAD_LEN && |s.published| >= 1 && CanRun(s, steps) && IsHistory(s.published, reqs)
    ensures IsHistory(Run(s, steps).published, reqs + Completed(s, steps))
    decreases |steps|
  {
    if steps == [] {
      assert reqs + [] == reqs;
    } else {
      var t := Apply(s, steps[0]);
      StepRecordsHistory(s, reqs, steps[0]);
      RunRecordsHistory(t, reqs + CompletedBy(s, steps[0]), steps[1..]);
      Regroup(reqs, CompletedBy(s, steps[0]), Completed(t, steps[1..]));
    }
  }

  lemma Regroup(a: seq<Request>, b: seq<Request>, c: seq<Request>)
    ensures a + b + c == a + (b + c)
  {
  }

  lemma FreshPayloadInv()
    ensures PayloadInv(Fresh()) && IsHistory(Fresh().published, [])
  {
    FreshLockInv();
  }

  // ------------------------------------------------------------------ what reads return

  /** In every interleaving of publishers, readers and crashes in which no `set_arena` begins
      over a root that is not the last one published: a snapshot a handle accepted decodes to exactly what some
      prefix of the completed publishes left, answers follow publication order, and once a
      handle has accepted a snapshot it never answers "nothing published" again. The only other
      root ever returned is zero, with the path and size as they stood when the reader let go of the
      lock. */
  lemma {:induction false} ReadsReturnWholePublishes(steps: seq<Step>, p: nat, i: nat, j: nat)
    requires CanRun(Fresh(), steps) && DisciplinedRun(Fresh(), steps)
    requires p in Run(Fresh(), steps).handles && i <= j < |Run(Fresh(), steps).handles[p].answers|
    ensures var reqs := Completed(Fresh(), steps);
            var answers := Run(Fresh(), steps).handles[p].answers;
            match answers[i]
            case Published(acc) =>
              && acc.version <= |reqs| && |acc.snap| == PAYLOAD_LEN
              && Decode(acc.snap) == LeftBy(reqs[..acc.version])
              && answers[j].Published? && acc.version <= answers[j].acc.version
            case NothingPublished(payload) => payload.root == ZeroRoot() && Stood(Fresh(), steps, p, payload)
  {
    if Run(Fresh(), steps).handles[p].answers[i].NothingPublished? {
      NothingPublishedStood(steps, p, i);
    }
    WholePublishes(steps, p, i, j);
  }

  lemma {:induction false} WholePublishes(steps: seq<Step>, p: nat, i: nat, j: nat)
    requires CanRun(Fresh(), steps) && DisciplinedRun(Fresh(), steps)
    requires p in Run(Fresh(), steps).handles && i <= j < |Run(Fresh(), steps).handles[p].answers|
    ensures var reqs := Completed(Fresh(), steps);
            var answers := Run(Fresh(), steps).handles[p].answers;
            match answers[i]
            case Published(acc) =>
              && acc.version <= |reqs| && |acc.snap| == PAYLOAD_LEN
              && Decode(acc.snap) == LeftBy(reqs[..acc.version])
              && answers[j].Published? && acc.version <= answers[j].acc.version
            case NothingPublished(payload) => payload.root == ZeroRoot()
  {
    FreshPayloadInv();
    RunKeepsPayload(Fresh(), steps);
    RunRecordsHistory(Fresh(), [], steps);
    assert [] + Completed(Fresh(), steps) == Completed(Fresh(), steps);
    var s := Run(Fresh(), steps);
    assert AnswersOk(s.published, s.handles[p].last, s.handles[p].answers);
  }

  /** A snapshot is accepted only while it is the latest publish. */
  lemma AcceptedIsLatest(steps: seq<Step>, p: nat)
    requires CanRun(Fresh(), steps) && DisciplinedRun(Fresh(), steps) && Enabled(Run(Fresh(), steps), Recheck(p))
    ensures var s := Run(Fresh(), steps); var pc := s.handles[p].pc;
            pc.before == s.counter ==> Decode(pc.buf) == LeftBy(Completed(Fresh(), steps))
  {
    FreshPayloadInv();
    RunKeepsPayload(Fresh(), steps);
    RunRecordsHistory(Fresh(), [], steps);
    var s, reqs := Run(Fresh(), steps), Completed(Fresh(), steps);
    assert [] + reqs == reqs && reqs[..|reqs|] == reqs;
    assert HandleOk(s.counter, s.mem, s.exclusive == Some(p), p in s.shared, s.handles[p].pc);
    if s.handles[p].pc.before == s.counter {
      assert s.handles[p].pc.buf == s.mem;
    }
  }

  // ------------------------------------------------------------------ the torn root

  /** A step of a run in which `p` works on its publish: others do anything. */
  predicate WithinPublish(step: Step, p: nat) {
    step.p == p ==> step.LoadCounter? || step.MarkOdd? || step.MarkMissed? || step.Store?
  }

  /** From `s` on, `p` has held the lock for `req`: nothing else was published, and a publish
      without a root has left the root bytes alone. */
  ghost predicate Working(s: State, t: State, p: nat, req: Request) {
    && LockInv(s) && LockInv(t) && t.exclusive == Some(p) && p in t.handles && t.published == s.published
    && (t.handles[p].pc.Beginning? || t.handles[p].pc.Marking? || t.handles[p].pc.Writing?)
    && t.handles[p].pc.req == req
    && (req.root.None? ==> t.mem[ROOT_AT..] == s.mem[ROOT_AT..])
  }

  lemma OwnStepKeepsWorking(s: State, t: State, p: nat, req: Request, step: Step)
    requires Working(s, t, p, req) && Enabled(t, step) && WithinPublish(step, p) && step.p == p
    ensures Working(s, Apply(t, step), p, req)
  {
    StepKeepsLockInv(t, step);
    assert HandleOk(t.counter, t.mem, t.exclusive == Some(p), p in t.shared, t.handles[p].pc);
    var t' := Apply(t, step);
    if step.Store? && req.root.None? {
      assert req.StoreAt(t.handles[p].pc.done) < ROOT_AT;
      assert t'.mem[ROOT_AT..] == t.mem[ROOT_AT..];
    }
  }

  lemma OtherStepKeepsWorking(s: State, t: State, p: nat, req: Request, step: Step)
    requires Working(s, t, p, req) && Enabled(t, step) && step.p != p
    ensures Working(s, Apply(t, step), p, req)
  {
    StepKeepsLockInv(t, step);
    OtherStepKeepsHolder(t, p, step, Apply(t, step));
  }

  lemma {:induction false} RunKeepsWorking(s: State, t: State, p: nat, req: Request, steps: seq<Step>)
    requires Working(s, t, p, req) && CanRun(t, steps)
    requires forall i :: 0 <= i < |steps| ==> WithinPublish(steps[i], p)
    ensures Working(s, Run(t, steps), p, req)
    decreases |steps|
  {
    if steps != [] {
      if steps[0].p == p {
        OwnStepKeepsWorking(s, t, p, req, steps[0]);
      } else {
        OtherStepKeepsWorking(s, t, p, req, steps[0]);
      }
      RunKeepsWorking(s, Apply(t, steps[0]), p, req, steps[1..]);
    }
  }

  lemma WholeWhenDone(s: State, t: State, p: nat, req: Request, done: State)
    requires Working(s, t, p, req) && Enabled(t, MarkEven(p)) && done == Apply(t, MarkEven(p))
    ensures |done.mem| == PAYLOAD_LEN && |done.published| == |s.published| + 1 && !IsOdd(done.counter)
    ensures Decode(done.mem) == Last(done.published) <==>
            req.root.Some? || s.mem[ROOT_AT..] == Last(s.published).root
  {
    assert HandleOk(t.counter, t.mem, t.exclusive == Some(p), p in t.shared, t.handles[p].pc);
    DecodeOfStores(t.mem, req);
  }

  /** Whether a publish will be whole is settled when it begins: however the others interleave, what
      it has published when it completes is what it promised exactly when it writes a root itself, or
      the root bytes it began over were those of the last publish. Either way readers then find an
      even counter. */
  lemma {:induction false} CompletionIsWholeIff(s: State, p: nat, steps: seq<Step>, t: State, done: State)
    requires LockInv(s) && p in s.handles && s.handles[p].pc.Beginning?
    requires CanRun(s, steps) && forall i :: 0 <= i < |steps| ==> WithinPublish(steps[i], p)
    requires t == Run(s, steps) && Enabled(t, MarkEven(p)) && done == Apply(t, MarkEven(p))
    ensures |done.mem| == PAYLOAD_LEN && |done.published| == |s.published| + 1 && !IsOdd(done.counter)
    ensures Decode(done.mem) == Last(done.published) <==>
            s.handles[p].pc.req.root.Some? || s.mem[ROOT_AT..] == Last(s.published).root
  {
    assert HandleOk(s.counter, s.mem, s.exclusive == Some(p), p in s.shared, s.handles[p].pc);
    RunKeepsWorking(s, s, p, s.handles[p].pc.req, steps);
    WholeWhenDone(s, t, p, s.handles[p].pc.req, done);
  }

  /** So the discipline asks for no more than it must: a publish that begins is disciplined exactly
      when, if it completes, it is whole. */
  lemma {:induction false} DisciplineIsExact(s: State, p: nat, steps: seq<Step>, t: State, done: State)
    requires LockInv(s) && Enabled(s, LoadCounter(p))
    requires CanRun(s, steps) && forall i :: 0 <= i < |steps| ==> WithinPublish(steps[i], p)
    requires t == Run(s, steps) && Enabled(t, MarkEven(p)) && done == Apply(t, MarkEven(p))
    ensures |done.mem| == PAYLOAD_LEN && |done.published| >= 1
    ensures Disciplined(s, LoadCounter(p)) <==> Decode(done.mem) == Last(done.published)
  {
    CompletionIsWholeIff(s, p, steps, t, done);
  }

  // ------------------------------------------------------------------ reads in any run

  /** Without any discipline: under an even counter the path and size are those last published. */
  ghost predicate PathInv(s: State) {
    && LockInv(s)
    && (!IsOdd(s.counter) ==>
          Decode(s.mem).path == Last(s.published).path && Decode(s.mem).size == Last(s.published).size)
  }

  lemma EndKeepsPathInv(s: State, p: nat, t: State)
    requires PathInv(s) && Enabled(s, MarkEven(p)) && t == Apply(s, MarkEven(p)) && LockInv(t)
    ensures PathInv(t)
  {
    assert HandleOk(s.counter, s.mem, s.exclusive == Some(p), p in s.shared, s.handles[p].pc);
    DecodeOfStores(s.mem, s.handles[p].pc.req);
  }

  lemma StepKeepsPathInv(s: State, step: Step)
    requires PathInv(s) && Enabled(s, step)
    ensures PathInv(Apply(s, step))
  {
    StepKeepsLockInv(s, step);
    if step.MarkEven? {
      EndKeepsPathInv(s, step.p, Apply(s, step));
    } else {
      StepWithoutEnd(s, step);
    }
  }

  lemma {:induction false} RunKeepsPathInv(s: State, steps: seq<Step>)
    requires PathInv(s) && CanRun(s, steps)
    ensures PathInv(Run(s, steps))
    decreases |steps|
  {
    if steps != [] {
      StepKeepsPathInv(s, steps[0]);
      RunKeepsPathInv(Apply(s, steps[0]), steps[1..]);
    }
  }

  /** In every run, an accepted snapshot has the path and size of the latest completed publish. */
  lemma AcceptedPathAndSize(steps: seq<Step>, p: nat)
    requires CanRun(Fresh(), steps) && Enabled(Run(Fresh(), steps), Recheck(p))
    ensures var s := Run(Fresh(), steps); var pc := s.handles[p].pc; var left := LeftBy(Completed(Fresh(), steps));
            pc.before == s.counter ==> Decode(pc.buf).path == left.path && Decode(pc.buf).size == left.size
  {
    FreshLockInv();
    RunKeepsPathInv(Fresh(), steps);
    LastIsLeft(steps);
    AcceptedIsLast(Run(Fresh(), steps), p);
  }

  lemma {:induction false} LastIsLeft(steps: seq<Step>)
    requires CanRun(Fresh(), steps)
    ensures Last(Run(Fresh(), steps).published) == LeftBy(Completed(Fresh(), steps))
  {
    FreshPayloadInv();
    RunRecordsHistory(Fresh(), [], steps);
    var reqs := Completed(Fresh(), steps);
    assert [] + reqs == reqs && reqs[..|reqs|] == reqs;
  }

  lemma AcceptedIsLast(s: State, p: nat)
    requires PathInv(s) && Enabled(s, Recheck(p))
    ensures var pc, last := s.handles[p].pc, Last(s.published);
            pc.before == s.counter ==> Decode(pc.buf).path == last.path && Decode(pc.buf).size == last.size
  {
    assert HandleOk(s.counter, s.mem, s.exclusive == Some(p), p in s.shared, s.handles[p].pc);
    if s.handles[p].pc.before == s.counter {
      assert s.handles[p].pc.buf == s.mem;
    }
  }

  lemma StepWithoutEnd(s: State, step: Step)
    requires LockInv(s) && Enabled(s, step) && !step.MarkEven?
    ensures LockInv(Apply(s, step)) && Apply(s, step).published == s.published
    ensures IsOdd(s.counter) ==> IsOdd(Apply(s, step).counter)
    ensures !IsOdd(Apply(s, step).counter) ==> Apply(s, step).mem == s.mem
  {
    StepKeepsLockInv(s, step);
    if step.Store? || step.MarkOdd? {
      assert HandleOk(s.counter, s.mem, s.exclusive == Some(step.p), step.p in s.shared, s.handles[step.p].pc);
    }
  }

  /** While no publish completes, an even counter means that nothing was stored. */
  lemma {:induction false} UntouchedWhileEven(s: State, steps: seq<Step>)
    requires LockInv(s) && CanRun(s, steps) && forall i :: 0 <= i < |steps| ==> !steps[i].MarkEven?
    ensures LockInv(Run(s, steps)) && Run(s, steps).published == s.published
    ensures IsOdd(s.counter) ==> IsOdd(Run(s, steps).counter)
    ensures !IsOdd(Run(s, steps).counter) ==> Run(s, steps).mem == s.mem
    decreases |steps|
  {
    if steps != [] {
      StepWithoutEnd(s, steps[0]);
      UntouchedWhileEven(Apply(s, steps[0]), steps[1..]);
    }
  }

  /** In every run, until the next publish completes, readers that accept a snapshot accept the one the
      last publish left; it is what that publish promised exactly when it wrote a root, or began over the
      root last published. So a torn root lasts until the next publish that writes one, and no longer. */
  lemma {:induction false} AcceptedIsWholeIff(
    s: State, q: nat, work: seq<Step>, t: State, done: State, later: seq<Step>, u: State, p: nat)
    requires LockInv(s) && q in s.handles && s.handles[q].pc.Beginning?
    requires CanRun(s, work) && forall i :: 0 <= i < |work| ==> WithinPublish(work[i], q)
    requires t == Run(s, work) && Enabled(t, MarkEven(q)) && done == Apply(t, MarkEven(q))
    requires |done.mem| == PAYLOAD_LEN && |done.published| >= 1 && CanRun(done, later) && u == Run(done, later)
    requires forall i :: 0 <= i < |later| ==> !later[i].MarkEven?
    requires Enabled(u, Recheck(p)) && u.handles[p].pc.before == u.counter
    ensures u.handles[p].pc.buf == done.mem && u.published == done.published
    ensures Decode(u.handles[p].pc.buf) == Last(u.published) <==>
            s.handles[q].pc.req.root.Some? || s.mem[ROOT_AT..] == Last(s.published).root
  {
    CompletionIsWholeIff(s, q, work, t, done);
    RunKeepsLockInv(s, work);
    StepKeepsLockInv(t, MarkEven(q));
    AcceptedIsUntouched(done, later, u, p);
  }

  lemma {:induction false} AcceptedIsUntouched(s: State, steps: seq<Step>, u: State, p: nat)
    requires LockInv(s) && CanRun(s, steps) && forall i :: 0 <= i < |steps| ==> !steps[i].MarkEven?
    requires u == Run(s, steps) && Enabled(u, Recheck(p)) && u.handles[p].pc.before == u.counter
    ensures u.handles[p].pc.buf == s.mem && u.published == s.published
  {
    UntouchedWhileEven(s, steps);
    assert HandleOk(u.counter, u.mem, u.exclusive == Some(p), p in u.shared, u.handles[p].pc);
    assert u.handles[p].pc.buf == u.mem;
  }
}
