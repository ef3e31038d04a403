/** What readers are given: every snapshot accepted under an even counter is a whole publish,
    handles read publishes in order, and no torn root escapes. */
module ControlPayload {
  import opened Bytes
  import opened ControlModel
  import opened ControlLock
  import opened Options

  // ------------------------------------------------------------------ whole publishes

  lemma {:induction false} UntilNulOf(s: seq<byte>, n: nat)
    requires n < |s| && s[n] == 0 && forall i :: 0 <= i < n ==> s[i] != 0
    ensures UntilNul(s) == s[..n]
  {
    if n > 0 {
      UntilNulOf(s[1..], n - 1);
      assert s[..n] == [s[0]] + s[1..][..n - 1];
    }
  }

  /** The path is there once its NUL is. */
  lemma PathOfStores(mem: seq<byte>, req: Request, k: nat)
    requires |mem| == PAYLOAD_LEN && req.Valid() && |req.path| < k <= req.StoreCount() && StoresDone(mem, req, k)
    ensures UntilNul(mem[..SIZE_AT]) == req.path
  {
    var n := |req.path|;
    forall i | 0 <= i <= n
      ensures mem[i] == if i < n then req.path[i] else 0
    {
      assert mem[req.StoreAt(i)] == req.StoreByte(i);
    }
    UntilNulOf(mem[..SIZE_AT], n);
    assert mem[..SIZE_AT][..n] == req.path;
  }

  lemma SizeOfStores(mem: seq<byte>, req: Request, k: nat)
    requires |mem| == PAYLOAD_LEN && req.Valid() && |req.path| + |req.size| < k <= req.StoreCount()
    requires StoresDone(mem, req, k)
    ensures mem[SIZE_AT..ROOT_AT] == req.size
  {
    forall i | 0 <= i < |req.size|
      ensures mem[SIZE_AT + i] == req.size[i]
    {
      var j := |req.path| + 1 + i;
      assert mem[req.StoreAt(j)] == req.StoreByte(j);
    }
  }

  lemma RootOfStores(mem: seq<byte>, req: Request)
    requires |mem| == PAYLOAD_LEN && req.Valid() && StoresDone(mem, req, req.StoreCount()) && req.root.Some?
    ensures mem[ROOT_AT..] == req.root.value
  {
    forall i | 0 <= i < |req.root.value|
      ensures mem[ROOT_AT + i] == req.root.value[i]
    {
      var j := |req.path| + 1 + |req.size| + i;
      assert mem[req.StoreAt(j)] == req.StoreByte(j);
    }
  }

  /** A finished publish decodes to what it promised, except that `set_arena` shows whatever
      root was there. */
  lemma DecodeOfStores(mem: seq<byte>, req: Request)
    requires |mem| == PAYLOAD_LEN && req.Valid() && StoresDone(mem, req, req.StoreCount())
    ensures Decode(mem) == Payload(req.path, req.size, if req.root.Some? then req.root.value else mem[ROOT_AT..])
  {
    PathOfStores(mem, req, req.StoreCount());
    SizeOfStores(mem, req, req.StoreCount());
    if req.root.Some? {
      RootOfStores(mem, req);
    }
  }

  // ------------------------------------------------------------------ the invariant

  function Last(published: seq<Payload>): Payload
    requires |published| >= 1
  {
    published[|published| - 1]
  }

  /** An accepted snapshot is exactly the payload of the publish it claims to show. */
  ghost predicate IsWhole(published: seq<Payload>, acc: Accepted) {
    |acc.snap| == PAYLOAD_LEN && acc.version < |published| && Decode(acc.snap) == published[acc.version]
  }

  /** A handle's answers: whole publishes in publication order, and "nothing published", with
      the zero root, only while the handle has accepted none. */
  ghost predicate AnswersOk(published: seq<Payload>, last: Option<Accepted>, answers: seq<Answer>) {
    && (last.Some? ==> IsWhole(published, last.value))
    && (forall i :: 0 <= i < |answers| ==>
          match answers[i]
          case Published(acc) => IsWhole(published, acc) && last.Some? && acc.version <= last.value.version
          case NothingPublished(payload) => payload.root == ZeroRoot())
    && (forall i, j :: 0 <= i <= j < |answers| && answers[i].Published? ==>
          answers[j].Published? && answers[i].acc.version <= answers[j].acc.version)
    && (last.None? ==> forall i :: 0 <= i < |answers| ==> answers[i].NothingPublished?)
  }

  /** A `set_arena` in progress still sees the last published root. */
  ghost predicate RootKept(published: seq<Payload>, mem: seq<byte>, pc: Pc)
    requires |published| >= 1 && |mem| == PAYLOAD_LEN
  {
    pc.Writing? && pc.req.root.None? ==> mem[ROOT_AT..] == Last(published).root
  }

  ghost predicate PayloadInv(s: State) {
    && LockInv(s)
    && (!IsOdd(s.counter) ==> Decode(s.mem) == Last(s.published))
    && (forall p :: p in s.handles ==> RootKept(s.published, s.mem, s.handles[p].pc))
    && (forall p :: p in s.handles ==> AnswersOk(s.published, s.handles[p].last, s.handles[p].answers))
  }

  /** The step by which a `set_arena` that holds the lock begins. */
  predicate BeginsWithoutRoot(s: State, step: Step) {
    step.LoadCounter? && PcOf(s, step.p).Beginning? && PcOf(s, step.p).req.root.None?
  }

  /** The one thing asked of publishers: `set_arena`, which writes no root, begins only while the
      root bytes are those of the last publish. */
  predicate Disciplined(s: State, step: Step)
    requires |s.mem| == PAYLOAD_LEN && |s.published| >= 1
  {
    BeginsWithoutRoot(s, step) ==> s.mem[ROOT_AT..] == Last(s.published).root
  }

  // ------------------------------------------------------------------ one step

  /** More publishes do not change what an answer shows. */
  lemma AnswersSurvive(published: seq<Payload>, more: seq<Payload>, last: Option<Accepted>, answers: seq<Answer>)
    requires AnswersOk(published, last, answers)
    ensures AnswersOk(published + more, last, answers)
  {
  }

  lemma AnswerAppended(published: seq<Payload>, last: Option<Accepted>, answers: seq<Answer>, acc: Accepted)
    requires AnswersOk(published, last, answers) && IsWhole(published, acc)
    requires last.Some? ==> last.value.version <= acc.version
    ensures AnswersOk(published, Some(acc), answers + [Published(acc)])
  {
  }

  lemma NothingAppended(published: seq<Payload>, answers: seq<Answer>, payload: Payload)
    requires AnswersOk(published, None, answers) && payload.root == ZeroRoot()
    ensures AnswersOk(published, None, answers + [NothingPublished(payload)])
  {
  }

  /** A step that touches neither the counter, the payload nor the list of publishes. */
  lemma QuietKeepsPayload(s: State, t: State, p: nat)
    requires PayloadInv(s) && LockInv(t) && p in s.handles
    requires t.counter == s.counter && t.mem == s.mem && t.published == s.published
    requires p in t.handles && t.handles == s.handles[p := t.handles[p]]
    requires RootKept(t.published, t.mem, t.handles[p].pc)
    requires AnswersOk(t.published, t.handles[p].last, t.handles[p].answers)
    ensures PayloadInv(t)
  {
  }

  lemma AcceptKeepsPayload(s: State, p: nat, acc: Accepted, t: State)
    requires PayloadInv(s) && p in s.handles && LockInv(t) && acc == Accepted(s.mem, |s.published| - 1)
    requires !IsOdd(s.counter) && t == Answered(s, p, Some(acc), Published(acc))
    ensures PayloadInv(t)
  {
    var h := s.handles[p];
    AnswerAppended(s.published, h.last, h.answers, acc);
    QuietKeepsPayload(s, t, p);
  }

  lemma RecheckIs(s: State, p: nat, t: State)
    requires LockInv(s) && Enabled(s, Recheck(p)) && t == Apply(s, Recheck(p))
    ensures if s.handles[p].pc.before != s.counter then t == MoveTo(s, p, AtHead)
            else !IsOdd(s.counter) &&
                 var acc := Accepted(s.mem, |s.published| - 1); t == Answered(s, p, Some(acc), Published(acc))
  {
    var pc := s.handles[p].pc;
    assert HandleOk(s.counter, s.mem, s.exclusive == Some(p), p in s.shared, pc);
    assert pc.before == s.counter ==> pc.buf == s.mem;
  }

  lemma RecheckKeepsPayload(s: State, p: nat, t: State)
    requires PayloadInv(s) && Enabled(s, Recheck(p)) && t == Apply(s, Recheck(p)) && LockInv(t)
    ensures PayloadInv(t)
  {
    RecheckIs(s, p, t);
    if s.handles[p].pc.before == s.counter {
      AcceptKeepsPayload(s, p, Accepted(s.mem, |s.published| - 1), t);
    } else {
      QuietKeepsPayload(s, t, p);
    }
  }

  lemma ReaderKeepsPayload(s: State, step: Step, t: State)
    requires PayloadInv(s) && Enabled(s, step) && t == Apply(s, step) && LockInv(t)
    requires step.Read? || step.LoadHead? || step.CopyByte? || step.ProbeTaken? || step.ProbeRefused? ||
             step.ProbeFailed? || step.Reload? || step.SalvageByte?
    ensures PayloadInv(t)
  {
    QuietKeepsPayload(s, t, step.p);
  }

  lemma LockingKeepsPayload(s: State, step: Step, t: State)
    requires PayloadInv(s) && Enabled(s, step) && t == Apply(s, step) && LockInv(t)
    requires step.Publish? || step.TakeLock? || step.Unlock? || step.Panic?
    ensures PayloadInv(t)
  {
    QuietKeepsPayload(s, t, step.p);
  }

  lemma ReleaseKeepsPayload(s: State, step: Step, t: State)
    requires PayloadInv(s) && Enabled(s, step) && step.Release? && t == Apply(s, step) && LockInv(t)
    ensures PayloadInv(t)
  {
    var p := step.p;
    var h := s.handles[p];
    if !h.pc.Resuming? {
      if h.last.Some? {
        AnswerAppended(s.published, h.last, h.answers, h.last.value);
      } else {
        NothingAppended(s.published, h.answers, Decode(h.pc.buf).(root := ZeroRoot()));
      }
    }
    QuietKeepsPayload(s, t, p);
  }

  lemma StoreKeepsPayload(s: State, step: Step, t: State)
    requires PayloadInv(s) && Enabled(s, step) && step.Store? && t == Apply(s, step) && LockInv(t)
    ensures PayloadInv(t)
  {
    var p := step.p;
    var pc := s.handles[p].pc;
    assert HandleOk(s.counter, s.mem, s.exclusive == Some(p), p in s.shared, pc);
    forall q | q in t.handles
      ensures RootKept(t.published, t.mem, t.handles[q].pc)
    {
      if q != p {
        OthersDoNotHold(s, p, q);
      } else if pc.req.root.None? {
        assert pc.req.StoreAt(pc.done) < ROOT_AT;
        assert t.mem[ROOT_AT..] == s.mem[ROOT_AT..];
      }
    }
  }

  lemma MarkOddKeepsPayload(s: State, step: Step, t: State)
    requires PayloadInv(s) && Enabled(s, step) && step.MarkOdd? && t == Apply(s, step) && LockInv(t)
    ensures PayloadInv(t)
  {
    assert HandleOk(s.counter, s.mem, s.exclusive == Some(step.p), step.p in s.shared, s.handles[step.p].pc);
  }

  lemma PublishedKeepsPayload(s: State, p: nat, payload: Payload, t: State)
    requires PayloadInv(s) && LockInv(t) && p in s.handles && s.exclusive == Some(p) && Decode(s.mem) == payload
    requires t == MoveTo(s, p, Unlocking).(counter := s.counter + 1, published := s.published + [payload])
    ensures PayloadInv(t)
  {
    forall q | q in t.handles
      ensures RootKept(t.published, t.mem, t.handles[q].pc)
      ensures AnswersOk(t.published, t.handles[q].last, t.handles[q].answers)
    {
      AnswersSurvive(s.published, [payload], s.handles[q].last, s.handles[q].answers);
      if q != p {
        OthersDoNotHold(s, p, q);
      }
    }
  }

  lemma MarkEvenKeepsPayload(s: State, step: Step, t: State)
    requires PayloadInv(s) && Enabled(s, step) && step.MarkEven? && t == Apply(s, step) && LockInv(t)
    ensures PayloadInv(t)
  {
    var p := step.p;
    var req := s.handles[p].pc.req;
    assert HandleOk(s.counter, s.mem, s.exclusive == Some(p), p in s.shared, s.handles[p].pc);
    assert RootKept(s.published, s.mem, s.handles[p].pc);
    DecodeOfStores(s.mem, req);
    PublishedKeepsPayload(s, p, Promised(s, req), t);
  }

  lemma LoadKeepsPayload(s: State, step: Step, t: State)
    requires PayloadInv(s) && Enabled(s, step) && Disciplined(s, step) && t == Apply(s, step) && LockInv(t)
    requires step.LoadCounter? || step.MarkMissed?
    ensures PayloadInv(t)
  {
    var p := step.p;
    assert HandleOk(s.counter, s.mem, s.exclusive == Some(p), p in s.shared, s.handles[p].pc);
    QuietKeepsPayload(s, t, p);
  }

  lemma OpenOrCrashKeepsPayload(s: State, step: Step, t: State)
    requires PayloadInv(s) && Enabled(s, step) && t == Apply(s, step) && LockInv(t)
    requires step.Open? || step.Crash?
    ensures PayloadInv(t)
  {
  }

  lemma PublishKeepsPayload(s: State, step: Step, t: State)
    requires PayloadInv(s) && Enabled(s, step) && Disciplined(s, step) && t == Apply(s, step) && LockInv(t)
    requires step.Store? || step.MarkOdd? || step.MarkEven? || step.LoadCounter? || step.MarkMissed?
    ensures PayloadInv(t)
  {
    if step.Store? {
      StoreKeepsPayload(s, step, t);
    } else if step.MarkOdd? {
      MarkOddKeepsPayload(s, step, t);
    } else if step.MarkEven? {
      MarkEvenKeepsPayload(s, step, t);
    } else {
      LoadKeepsPayload(s, step, t);
    }
  }

  lemma StepKeepsPayload(s: State, step: Step)
    requires PayloadInv(s) && Enabled(s, step) && Disciplined(s, step)
    ensures PayloadInv(Apply(s, step))
  {
    StepKeepsLockInv(s, step);
    var t := Apply(s, step);
    if step.Open? || step.Crash? {
      OpenOrCrashKeepsPayload(s, step, t);
    } else if step.Store? || step.MarkOdd? || step.MarkEven? || step.LoadCounter? || step.MarkMissed? {
      PublishKeepsPayload(s, step, t);
    } else if step.Recheck? {
      RecheckKeepsPayload(s, step.p, t);
    } else if step.Release? {
      ReleaseKeepsPayload(s, step, t);
    } else if step.Publish? || step.TakeLock? || step.Unlock? || step.Panic? {
      LockingKeepsPayload(s, step, t);
    } else {
      ReaderKeepsPayload(s, step, t);
    }
  }

  // ------------------------------------------------------------------ whole runs

  ghost predicate DisciplinedRun(s: State, steps: seq<Step>)
    requires |s.mem| == PAYLOAD_LEN && |s.published| >= 1 && CanRun(s, steps)
    decreases |steps|
  {
    steps == [] || (Disciplined(s, steps[0]) && DisciplinedRun(Apply(s, steps[0]), steps[1..]))
  }

  lemma {:induction false} RunKeepsPayload(s: State, steps: seq<Step>)
    requires PayloadInv(s) && CanRun(s, steps) && DisciplinedRun(s, steps)
    ensures PayloadInv(Run(s, steps))
    decreases |steps|
  {
    if steps != [] {
      StepKeepsPayload(s, steps[0]);
      RunKeepsPayload(Apply(s, steps[0]), steps[1..]);
    }
  }

  // ------------------------------------------------------------------ discipline by parity

  /** The same asked of the counter alone: `set_arena` begins only from an even counter. */
  ghost predicate EvenRun(s: State, steps: seq<Step>)
    requires |s.mem| == PAYLOAD_LEN && |s.published| >= 1 && CanRun(s, steps)
    decreases |steps|
  {
    steps == [] ||
    ((BeginsWithoutRoot(s, steps[0]) ==> !IsOdd(s.counter)) && EvenRun(Apply(s, steps[0]), steps[1..]))
  }

  /** An even counter is enough, though a publisher that died before its first root byte leaves an
      odd one over a whole root. */
  lemma {:induction false} EvenRunIsDisciplined(s: State, steps: seq<Step>)
    requires PayloadInv(s) && CanRun(s, steps) && EvenRun(s, steps)
    ensures DisciplinedRun(s, steps)
    decreases |steps|
  {
    if steps != [] {
      StepKeepsPayload(s, steps[0]);
      EvenRunIsDisciplined(Apply(s, steps[0]), steps[1..]);
    }
  }
}
