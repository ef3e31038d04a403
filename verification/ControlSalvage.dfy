/** What a reader is told over a publish that was abandoned: the path and size as they stand. */
module ControlSalvage {
  import opened ControlModel
  import opened ControlLock
  import opened ControlPayload
  import opened Options

  /** The block as it stands, under the zero root. */
  function AsItStands(s: State): Payload
    requires |s.mem| == PAYLOAD_LEN
  {
    Payload(Decode(s.mem).path, Decode(s.mem).size, ZeroRoot())
  }

  /** At some point of the run `p` releases its lock while the block stands at `payload`. */
  ghost predicate Stood(s: State, steps: seq<Step>, p: nat, payload: Payload)
    requires |s.mem| == PAYLOAD_LEN && |s.published| >= 1 && CanRun(s, steps)
    decreases |steps|
  {
    && steps != []
    && ((steps[0] == Release(p) && payload == AsItStands(s)) || Stood(Apply(s, steps[0]), steps[1..], p, payload))
  }

  /** A handle that has accepted nothing answers the block as it stands. */
  lemma ReleaseAnswers(s: State, p: nat, t: State)
    requires LockInv(s) && Enabled(s, Release(p)) && t == Apply(s, Release(p))
    requires s.handles[p].pc.Salvaging? && s.handles[p].last.None?
    ensures t.handles[p] == Handle(Idle, None, s.handles[p].answers + [NothingPublished(AsItStands(s))])
  {
    var pc := s.handles[p].pc;
    assert HandleOk(s.counter, s.mem, s.exclusive == Some(p), p in s.shared, pc);
    assert pc.buf == s.mem;
  }

  lemma AnswerFrom(s: State, step: Step, t: State, p: nat, k: nat)
    requires LockInv(s) && Enabled(s, step) && t == Apply(s, step)
    requires p in t.handles && k < |t.handles[p].answers| && t.handles[p].answers[k].NothingPublished?
    ensures || (p in s.handles && k < |s.handles[p].answers| && s.handles[p].answers[k] == t.handles[p].answers[k])
            || (step == Release(p) && t.handles[p].answers[k] == NothingPublished(AsItStands(s)))
  {
    if step == Release(p) && s.handles[p].pc.Salvaging? && s.handles[p].last.None? {
      ReleaseAnswers(s, p, t);
    }
  }

  lemma {:induction false} AnswersStood(s: State, steps: seq<Step>, p: nat, k: nat)
    requires LockInv(s) && CanRun(s, steps) && p in Run(s, steps).handles
    requires k < |Run(s, steps).handles[p].answers| && Run(s, steps).handles[p].answers[k].NothingPublished?
    ensures var answer := Run(s, steps).handles[p].answers[k];
            || (p in s.handles && k < |s.handles[p].answers| && s.handles[p].answers[k] == answer)
            || Stood(s, steps, p, answer.payload)
    decreases |steps|
  {
    if steps != [] {
      var t := Apply(s, steps[0]);
      StepKeepsLockInv(s, steps[0]);
      AnswersStood(t, steps[1..], p, k);
      if p in t.handles && k < |t.handles[p].answers| && t.handles[p].answers[k].NothingPublished? {
        AnswerFrom(s, steps[0], t, p, k);
      }
    }
  }

  /** In every run, whatever publishers did: each "nothing published" a handle answered has the path and
      size the block's bytes spelled when the handle released its lock, under the zero root. */
  lemma {:induction false} NothingPublishedStood(steps: seq<Step>, p: nat, k: nat)
    requires CanRun(Fresh(), steps) && p in Run(Fresh(), steps).handles
    requires k < |Run(Fresh(), steps).handles[p].answers|
    requires Run(Fresh(), steps).handles[p].answers[k].NothingPublished?
    ensures Stood(Fresh(), steps, p, Run(Fresh(), steps).handles[p].answers[k].payload)
  {
    FreshLockInv();
    AnswersStood(Fresh(), steps, p, k);
  }

  // ------------------------------------------------------------------ a publisher that died

  lemma {:induction false} NoStoreKeepsBlock(s: State, steps: seq<Step>)
    requires LockInv(s) && CanRun(s, steps) && forall i :: 0 <= i < |steps| ==> !steps[i].Store?
    ensures LockInv(Run(s, steps)) && Run(s, steps).mem == s.mem
    decreases |steps|
  {
    if steps != [] {
      StepKeepsLockInv(s, steps[0]);
      NoStoreKeepsBlock(Apply(s, steps[0]), steps[1..]);
    }
  }

  /** A publisher dies after `done` stores and nobody stores after it. A handle that has accepted nothing
      is then told the dead publisher's path once its NUL was stored, and its size once the size was. */
  lemma {:induction false} AbandonedPathAndSize(
    s: State, p: nat, req: Request, done: nat, death: Step, later: seq<Step>, u: State, q: nat)
    requires LockInv(s) && p in s.handles && s.handles[p].pc == Writing(req, done)
    requires death == Crash(p) || death == Panic(p)
    requires CanRun(Apply(s, death), later) && u == Run(Apply(s, death), later)
    requires forall i :: 0 <= i < |later| ==> !later[i].Store?
    requires Enabled(u, Release(q)) && u.handles[q].pc.Salvaging? && u.handles[q].last.None?
    ensures var answers := Apply(u, Release(q)).handles[q].answers;
            && |answers| == |u.handles[q].answers| + 1 && answers[|u.handles[q].answers|].NothingPublished?
            && var told := answers[|u.handles[q].answers|].payload;
               && told.root == ZeroRoot()
               && (done > |req.path| ==> told.path == req.path)
               && (done > |req.path| + |req.size| ==> told.size == req.size)
  {
    assert HandleOk(s.counter, s.mem, s.exclusive == Some(p), p in s.shared, s.handles[p].pc);
    StepKeepsLockInv(s, death);
    NoStoreKeepsBlock(Apply(s, death), later);
    ReleaseAnswers(u, q, Apply(u, Release(q)));
    StoredSoFar(s, req, done);
  }

  /** What stands of a publish after `done` of its stores. */
  lemma StoredSoFar(s: State, req: Request, done: nat)
    requires |s.mem| == PAYLOAD_LEN && req.Valid() && done <= req.StoreCount() && StoresDone(s.mem, req, done)
    ensures done > |req.path| ==> AsItStands(s).path == req.path
    ensures done > |req.path| + |req.size| ==> AsItStands(s).size == req.size
  {
    if done > |req.path| {
      PathOfStores(s.mem, req, done);
    }
    if done > |req.path| + |req.size| {
      SizeOfStores(s.mem, req, done);
    }
  }
}
