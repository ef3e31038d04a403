/** Why `set_arena` must not begin over an abandoned publish: a run in which it does, and a
    reader accepts a root that nobody published. */
module ControlTorn {
  import opened Bytes
  import opened ControlModel
  import opened ControlLock
  import opened ControlPayload
  import opened Options

  function Repeat(step: Step, n: nat): seq<Step> {
    if n == 0 then [] else [step] + Repeat(step, n - 1)
  }

  lemma {:induction false} RunAppend(s: State, a: seq<Step>, b: seq<Step>)
    requires |s.mem| == PAYLOAD_LEN && |s.published| >= 1 && CanRun(s, a) && CanRun(Run(s, a), b)
    ensures CanRun(s, a + b) && Run(s, a + b) == Run(Run(s, a), b)
    decreases |a|
  {
    if a == [] {
      assert a + b == b;
    } else {
      RunAppend(Apply(s, a[0]), a[1..], b);
      assert (a + b)[1..] == a[1..] + b;
    }
  }

  lemma {:induction false} RunOne(s: State, step: Step)
    requires |s.mem| == PAYLOAD_LEN && |s.published| >= 1 && Enabled(s, step)
    ensures CanRun(s, [step]) && Run(s, [step]) == Apply(s, step)
  {
    assert [step][1..] == [];
  }

  lemma {:induction false} RunTwo(s: State, a: Step, b: Step)
    requires |s.mem| == PAYLOAD_LEN && |s.published| >= 1 && Enabled(s, a) && Enabled(Apply(s, a), b)
    ensures CanRun(s, [a, b]) && Run(s, [a, b]) == Apply(Apply(s, a), b)
  {
    RunOne(Apply(s, a), b);
    assert [a, b][1..] == [b];
  }

  lemma {:induction false} RunRepeat(s: State, step: Step, n: nat, t: State)
    requires |s.mem| == PAYLOAD_LEN && |s.published| >= 1 && n > 0 && Enabled(s, step) && t == Apply(s, step)
    requires CanRun(t, Repeat(step, n - 1))
    ensures CanRun(s, Repeat(step, n)) && Run(s, Repeat(step, n)) == Run(t, Repeat(step, n - 1))
  {
    assert Repeat(step, n)[1..] == Repeat(step, n - 1);
  }

  /** `t` is `s` after its handle `p` has performed `n` more stores, none at `bound` or above. */
  ghost predicate Stored(s: State, p: nat, n: nat, bound: nat, t: State) {
    && |s.mem| == |t.mem| == PAYLOAD_LEN && p in s.handles && s.handles[p].pc.Writing?
    && var pc := s.handles[p].pc;
       && t == MoveTo(s, p, Writing(pc.req, pc.done + n)).(mem := t.mem)
       && pc.req.Valid() && pc.done + n <= pc.req.StoreCount() && StoresDone(t.mem, pc.req, pc.done + n)
       && forall i :: bound <= i < PAYLOAD_LEN ==> t.mem[i] == s.mem[i]
  }

  /** Handle `p` has `n` more stores to make, all below `bound`. */
  ghost predicate HasStores(s: State, p: nat, n: nat, bound: nat) {
    && |s.mem| == PAYLOAD_LEN && |s.published| >= 1 && p in s.handles && s.handles[p].pc.Writing?
    && var pc := s.handles[p].pc;
       && pc.req.Valid() && pc.done + n <= pc.req.StoreCount() && StoresDone(s.mem, pc.req, pc.done)
       && forall j :: pc.done <= j < pc.done + n ==> pc.req.StoreAt(j) < bound
  }

  /** A publisher left alone performs its next `n` stores. */
  lemma {:induction false} RunStores(s: State, p: nat, n: nat, bound: nat)
    requires HasStores(s, p, n, bound)
    ensures CanRun(s, Repeat(Store(p), n)) && Stored(s, p, n, bound, Run(s, Repeat(Store(p), n)))
    decreases n
  {
    if n == 0 {
      StoredNone(s, p, bound);
    } else {
      var t := Apply(s, Store(p));
      StoreOnce(s, p, n, bound, t);
      RunStores(t, p, n - 1, bound);
      RunRepeat(s, Store(p), n, t);
      StoredThen(s, p, n, bound, t, Run(t, Repeat(Store(p), n - 1)));
    }
  }

  lemma StoreOnce(s: State, p: nat, n: nat, bound: nat, t: State)
    requires HasStores(s, p, n, bound) && n > 0 && t == Apply(s, Store(p))
    ensures Stored(s, p, 1, bound, t) && HasStores(t, p, n - 1, bound)
  {
    var pc := s.handles[p].pc;
    assert pc.req.StoreAt(pc.done) < bound;
    StoreExtends(s.mem, pc.req, pc.done);
  }

  lemma StoredNone(s: State, p: nat, bound: nat)
    requires HasStores(s, p, 0, bound)
    ensures Stored(s, p, 0, bound, s)
  {
    assert s.handles == s.handles[p := s.handles[p]];
  }

  lemma StoredThen(s: State, p: nat, n: nat, bound: nat, t: State, u: State)
    requires n > 0 && Stored(s, p, 1, bound, t) && Stored(t, p, n - 1, bound, u)
    ensures Stored(s, p, n, bound, u)
  {
    assert u.handles == s.handles[p := u.handles[p]];
  }

  /** A reader left alone copies the rest of the payload. */
  lemma {:induction false} RunCopies(s: State, p: nat, n: nat)
    requires |s.mem| == PAYLOAD_LEN && |s.published| >= 1 && p in s.handles
    requires var pc := s.handles[p].pc; pc.Copying? && |pc.buf| + n == PAYLOAD_LEN && pc.buf == s.mem[..|pc.buf|]
    ensures CanRun(s, Repeat(CopyByte(p), n))
    ensures Run(s, Repeat(CopyByte(p), n)) == MoveTo(s, p, Copying(s.handles[p].pc.before, s.mem))
    decreases n
  {
    var pc := s.handles[p].pc;
    if n == 0 {
      assert pc.buf == s.mem;
      assert s.handles == s.handles[p := s.handles[p]];
    } else {
      var t := Apply(s, CopyByte(p));
      assert s.mem[..|pc.buf| + 1] == s.mem[..|pc.buf|] + [s.mem[|pc.buf|]];
      RunCopies(t, p, n - 1);
      RunRepeat(s, CopyByte(p), n, t);
    }
  }

  function Filled(n: nat, b: byte): seq<byte> {
    seq(n, i => b)
  }

  function NewRoot(): Request {
    Request([], Filled(8, 0), Some(Filled(32, 1)))
  }

  function Readvertise(): Request {
    Request([], Filled(8, 0), None)
  }

  /** The block as a publisher leaves it when it dies inside the root write: odd counter, no
      lock held, the first root byte new and the last one old. */
  ghost predicate Abandoned(s: State) {
    && |s.mem| == PAYLOAD_LEN && s.counter == 1 && s.exclusive.None? && s.shared == {} && s.handles == map[]
    && s.published == Fresh().published
    && s.mem[ROOT_AT] == 1 && s.mem[PAYLOAD_LEN - 1] == 0
  }

  lemma BeginNewRoot() returns (steps: seq<Step>)
    ensures CanRun(Fresh(), steps)
    ensures Run(Fresh(), steps) ==
            Fresh().(counter := 1, exclusive := Some(0), handles := map[0 := Handle(Writing(NewRoot(), 0), None, [])])
  {
    var s := Fresh();
    RunTwo(s, Open(0), Publish(0, NewRoot()));
    var s1 := Apply(Apply(s, Open(0)), Publish(0, NewRoot()));
    var rest := MarkAlone(s1, NewRoot());
    RunAppend(s, [Open(0), Publish(0, NewRoot())], rest);
    steps := [Open(0), Publish(0, NewRoot())] + rest;
  }

  /** A publisher left alone takes the lock and makes the counter odd. */
  lemma MarkAlone(s: State, req: Request) returns (steps: seq<Step>)
    requires |s.mem| == PAYLOAD_LEN && |s.published| >= 1 && !IsOdd(s.counter)
    requires s.handles == map[0 := Handle(Locking(req), None, [])] && s.exclusive.None? && s.shared == {}
    ensures CanRun(s, steps)
    ensures Run(s, steps) ==
            s.(counter := s.counter + 1, exclusive := Some(0), handles := map[0 := Handle(Writing(req, 0), None, [])])
  {
    RunTwo(s, TakeLock(0), LoadCounter(0));
    var s1 := Apply(Apply(s, TakeLock(0)), LoadCounter(0));
    RunOne(s1, MarkOdd(0));
    RunAppend(s, [TakeLock(0), LoadCounter(0)], [MarkOdd(0)]);
    steps := [TakeLock(0), LoadCounter(0)] + [MarkOdd(0)];
  }

  lemma DieMidRoot() returns (steps: seq<Step>)
    ensures CanRun(Fresh(), steps) && Abandoned(Run(Fresh(), steps))
  {
    var begin := BeginNewRoot();
    var rest := StoreAndDie(Run(Fresh(), begin), 10);
    RunAppend(Fresh(), begin, rest);
    steps := begin + rest;
  }

  /** The NUL, the eight size bytes and one root byte are stored; then the publisher dies. */
  lemma StoreAndDie(s: State, n: nat) returns (steps: seq<Step>)
    requires n == 10 && s == Fresh().(counter := 1, exclusive := Some(0),
                                      handles := map[0 := Handle(Writing(NewRoot(), 0), None, [])])
    ensures CanRun(s, steps) && Abandoned(Run(s, steps))
  {
    var req := NewRoot();
    RunStores(s, 0, n, ROOT_AT + 1);
    var stores := Repeat(Store(0), n);
    var t := Run(s, stores);
    assert t.mem[req.StoreAt(n - 1)] == req.StoreByte(n - 1);
    RunOne(t, Crash(0));
    RunAppend(s, stores, [Crash(0)]);
    steps := stores + [Crash(0)];
  }

  lemma BeginReadvertise(s: State) returns (steps: seq<Step>)
    requires Abandoned(s)
    ensures |s.published| >= 1 && CanRun(s, steps)
    ensures Run(s, steps) == s.(exclusive := Some(1), handles := map[1 := Handle(Writing(Readvertise(), 0), None, [])])
  {
    RunTwo(s, Open(1), Publish(1, Readvertise()));
    var s1 := Apply(Apply(s, Open(1)), Publish(1, Readvertise()));
    RunTwo(s1, TakeLock(1), LoadCounter(1));
    RunAppend(s, [Open(1), Publish(1, Readvertise())], [TakeLock(1), LoadCounter(1)]);
    steps := [Open(1), Publish(1, Readvertise())] + [TakeLock(1), LoadCounter(1)];
  }

  lemma StoreReadvertise(s: State, n: nat) returns (steps: seq<Step>)
    requires Abandoned(s) && n == Readvertise().StoreCount()
    ensures |s.published| >= 1 && CanRun(s, steps)
    ensures var t := Run(s, steps);
            && t == s.(exclusive := Some(1), handles := map[1 := Handle(Writing(Readvertise(), n), None, [])],
                       mem := t.mem)
            && t.mem[ROOT_AT] == 1 && t.mem[PAYLOAD_LEN - 1] == 0
  {
    var begin := BeginReadvertise(s);
    var s1 := Run(s, begin);
    RunStores(s1, 1, n, ROOT_AT);
    RunAppend(s, begin, Repeat(Store(1), n));
    steps := begin + Repeat(Store(1), n);
  }

  /** The re-advertisement completes over the torn root. */
  lemma CompleteReadvertise(s: State) returns (steps: seq<Step>)
    requires Abandoned(s)
    ensures |s.published| >= 1 && CanRun(s, steps)
    ensures var t := Run(s, steps);
            && t.counter == 2 && t.exclusive.None? && t.handles == map[1 := Handle(Idle, None, [])]
            && t.published == s.published + [Payload([], Filled(8, 0), Last(s.published).root)]
            && t.mem[ROOT_AT] == 1 && t.mem[PAYLOAD_LEN - 1] == 0
  {
    var stores := StoreReadvertise(s, 9);
    RunTwo(Run(s, stores), MarkEven(1), Unlock(1));
    RunAppend(s, stores, [MarkEven(1), Unlock(1)]);
    steps := stores + [MarkEven(1), Unlock(1)];
  }

  lemma ReadAlone(s: State, p: nat) returns (steps: seq<Step>)
    requires |s.mem| == PAYLOAD_LEN && |s.published| >= 1
    requires p in s.handles && s.handles[p].pc.Idle? && !IsOdd(s.counter)
    ensures CanRun(s, steps)
    ensures var acc := Accepted(s.mem, |s.published| - 1);
            Run(s, steps) == Answered(s, p, Some(acc), Published(acc))
  {
    RunTwo(s, Read(p), LoadHead(p));
    var s1 := Apply(Apply(s, Read(p)), LoadHead(p));
    var rest := CopyAndAccept(s1, p, PAYLOAD_LEN);
    RunAppend(s, [Read(p), LoadHead(p)], rest);
    steps := [Read(p), LoadHead(p)] + rest;
  }

  lemma CopyAndAccept(s: State, p: nat, n: nat) returns (steps: seq<Step>)
    requires |s.mem| == PAYLOAD_LEN == n && |s.published| >= 1
    requires p in s.handles && s.handles[p].pc == Copying(s.counter, [])
    ensures CanRun(s, steps)
    ensures var acc := Accepted(s.mem, |s.published| - 1);
            Run(s, steps) == Answered(s, p, Some(acc), Published(acc))
  {
    RunCopies(s, p, n);
    var copies := Repeat(CopyByte(p), n);
    RunOne(Run(s, copies), Recheck(p));
    RunAppend(s, copies, [Recheck(p)]);
    steps := copies + [Recheck(p)];
  }

  /** The discipline is needed: in some run without it a reader is given, as published, a root
      that no publish ever left. */
  lemma UndisciplinedSetArenaPublishesTornRoot() returns (steps: seq<Step>)
    ensures CanRun(Fresh(), steps) && 1 in Run(Fresh(), steps).handles
    ensures var s := Run(Fresh(), steps); var answers := s.handles[1].answers;
            && |answers| == 1 && answers[0].Published? && |answers[0].acc.snap| == PAYLOAD_LEN
            && forall i :: 0 <= i < |s.published| ==> Decode(answers[0].acc.snap).root != s.published[i].root
  {
    var die := DieMidRoot();
    var s := Run(Fresh(), die);
    var again := CompleteReadvertise(s);
    var t := Run(s, again);
    var read := ReadAlone(t, 1);
    RunAppend(s, again, read);
    RunAppend(Fresh(), die, again + read);
    steps := die + (again + read);
    assert t.mem[ROOT_AT..][0] == 1;
    assert Fresh().published[0].root[0] == 0;
  }
}
