/** The control block: a payload published under a seqlock, guarded by an advisory file lock,
    with publishers and readers in any number of processes that may die between any two byte
    accesses. One step is one atomic access; the counter is unbounded. */
module ControlModel {
  import opened Bytes
  import opened Options

  // ------------------------------------------------------------------ the payload

  /** The payload bytes, in the order a reader copies them: path, size, root. */
  const SIZE_AT: nat := 256
  const ROOT_AT: nat := 264
  const PAYLOAD_LEN: nat := 296

  datatype Payload = Payload(path: seq<byte>, size: seq<byte>, root: seq<byte>)

  /** The bytes before the first NUL. */
  function UntilNul(s: seq<byte>): seq<byte> {
    if s == [] || s[0] == 0 then [] else [s[0]] + UntilNul(s[1..])
  }

  /** What a copy of the payload says; bytes after the path's NUL are leftovers. */
  function Decode(mem: seq<byte>): Payload
    requires |mem| == PAYLOAD_LEN
  {
    Payload(UntilNul(mem[..SIZE_AT]), mem[SIZE_AT..ROOT_AT], mem[ROOT_AT..])
  }

  function ZeroRoot(): seq<byte> {
    seq(PAYLOAD_LEN - ROOT_AT, i => 0)
  }

  // ------------------------------------------------------------------ publishing

  /** A publish; `set_arena` carries no root and leaves the root bytes alone. */
  datatype Request = Request(path: seq<byte>, size: seq<byte>, root: Option<seq<byte>>) {
    predicate Valid() {
      && |path| < SIZE_AT && 0 !in path
      && |size| == ROOT_AT - SIZE_AT
      && (root.Some? ==> |root.value| == PAYLOAD_LEN - ROOT_AT)
    }

    /** How many bytes the publish stores. */
    function StoreCount(): nat {
      |path| + 1 + |size| + if root.Some? then |root.value| else 0
    }

    /** Where the `k`-th store goes: the path and its NUL, then the size, then the root. */
    function StoreAt(k: nat): nat
      requires Valid() && k < StoreCount()
    {
      if k <= |path| then k else SIZE_AT + (k - |path| - 1)
    }

    function StoreByte(k: nat): byte
      requires Valid() && k < StoreCount()
    {
      if k < |path| then path[k]
      else if k == |path| then 0
      else if k - |path| - 1 < |size| then size[k - |path| - 1]
      else root.value[k - |path| - 1 - |size|]
    }
  }

  // ------------------------------------------------------------------ the state

  /** Where a handle is. A handle publishes or reads, one call at a time. */
  datatype Pc =
    | Idle
    | Locking(req: Request)                         // waiting for the publish lock
    | Beginning(req: Request)                       // lock held, about to load the counter
    | Marking(req: Request, current: nat)           // loaded an even counter, about to make it odd
    | Writing(req: Request, done: nat)              // `done` bytes stored
    | Unlocking                                     // counter made even, lock still held
    | AtHead                                        // reader, about to load the counter
    | Copying(before: nat, buf: seq<byte>)          // copying under an even counter
    | Probing(odd: nat)                             // met an odd counter, about to try the lock
    | Holding(odd: nat)                             // shares the lock, about to reload the counter
    | Salvaging(odd: nat, buf: seq<byte>)           // copying under the shared lock
    | Resuming                                      // counter moved: release the lock and retry

  /** A snapshot taken under a stable even counter, and the index of the publish it shows. */
  datatype Accepted = Accepted(snap: seq<byte>, version: nat)

  /** What one read returned: a snapshot the handle accepted, now or before, or the payload as
      it stands under the zero root. */
  datatype Answer = Published(acc: Accepted) | NothingPublished(payload: Payload)

  datatype Handle = Handle(pc: Pc, last: Option<Accepted>, answers: seq<Answer>)

  datatype State = State(
    counter: nat,
    mem: seq<byte>,
    exclusive: Option<nat>,
    shared: set<nat>,
    handles: map<nat, Handle>,
    published: seq<Payload>)

  /** A fresh control file: all zeros, nothing published. */
  function Fresh(): State {
    var mem := seq(PAYLOAD_LEN, i => 0);
    State(0, mem, None, {}, map[], [Decode(mem)])
  }

  // ------------------------------------------------------------------ the steps

  datatype Step =
    | Open(p: nat)
    | Crash(p: nat)
    | Publish(p: nat, req: Request)
    | TakeLock(p: nat)
    | LoadCounter(p: nat)
    | MarkOdd(p: nat)
    | MarkMissed(p: nat)
    | Store(p: nat)
    | MarkEven(p: nat)
    | Unlock(p: nat)
    | Panic(p: nat)
    | Read(p: nat)
    | LoadHead(p: nat)
    | CopyByte(p: nat)
    | Recheck(p: nat)
    | ProbeTaken(p: nat)
    | ProbeRefused(p: nat)
    | ProbeFailed(p: nat)
    | Reload(p: nat)
    | SalvageByte(p: nat)
    | Release(p: nat)

  function PcOf(s: State, p: nat): Pc {
    if p in s.handles then s.handles[p].pc else Idle
  }

  predicate Enabled(s: State, step: Step) {
    var p := step.p;
    if step.Open? then p !in s.handles
    else
      && p in s.handles
      && var pc := s.handles[p].pc;
         match step
         case Crash(_) => true
         case Publish(_, req) => pc.Idle? && req.Valid()
         case TakeLock(_) => pc.Locking? && s.exclusive.None? && s.shared == {}
         case LoadCounter(_) => pc.Beginning?
         case MarkOdd(_) => pc.Marking? && pc.current == s.counter
         case MarkMissed(_) => pc.Marking?
         case Store(_) => pc.Writing? && pc.req.Valid() && pc.done < pc.req.StoreCount()
         case MarkEven(_) => pc.Writing? && pc.done == pc.req.StoreCount()
         case Unlock(_) => pc.Unlocking?
         case Panic(_) => pc.Writing?
         case Read(_) => pc.Idle?
         case LoadHead(_) => pc.AtHead?
         case CopyByte(_) => pc.Copying? && |pc.buf| < |s.mem|
         case Recheck(_) => pc.Copying? && |pc.buf| == PAYLOAD_LEN
         case ProbeTaken(_) => pc.Probing? && s.exclusive.None?
         case ProbeRefused(_) => pc.Probing? && s.exclusive.Some?
         case ProbeFailed(_) => pc.Probing?
         case Reload(_) => pc.Holding?
         case SalvageByte(_) => pc.Salvaging? && |pc.buf| < |s.mem|
         case Release(_) => pc.Resuming? || (pc.Salvaging? && |pc.buf| == PAYLOAD_LEN)
  }

  predicate IsOdd(n: nat) {
    n % 2 == 1
  }

  function MoveTo(s: State, p: nat, pc: Pc): State
    requires p in s.handles
  {
    s.(handles := s.handles[p := s.handles[p].(pc := pc)])
  }

  /** Drop whatever lock `p` holds. */
  function Dropped(s: State, p: nat): State {
    s.(exclusive := if s.exclusive == Some(p) then None else s.exclusive, shared := s.shared - {p})
  }

  /** The payload a completed publish promises: `set_arena` keeps the last published root. */
  function Promised(s: State, req: Request): Payload
    requires |s.published| >= 1
  {
    Payload(req.path, req.size, if req.root.Some? then req.root.value else s.published[|s.published| - 1].root)
  }

  /** The read returns: the answer is recorded and the handle is idle again. */
  function Answered(s: State, p: nat, last: Option<Accepted>, answer: Answer): State
    requires p in s.handles
  {
    s.(handles := s.handles[p := Handle(Idle, last, s.handles[p].answers + [answer])])
  }

  /** Where `seq_begin` goes after it has loaded the counter: an odd counter was left by a dead
      publisher and stays odd. */
  function AfterLoad(s: State, req: Request): Pc {
    if IsOdd(s.counter) then Writing(req, 0) else Marking(req, s.counter)
  }

  function Apply(s: State, step: Step): State
    requires Enabled(s, step) && |s.mem| == PAYLOAD_LEN && |s.published| >= 1
  {
    var p := step.p;
    if step.Open? then s.(handles := s.handles[p := Handle(Idle, None, [])])
    else
      var h := s.handles[p];
      match step
      case Crash(_) => Dropped(s, p).(handles := s.handles - {p})
      case Publish(_, req) => MoveTo(s, p, Locking(req))
      case TakeLock(_) => MoveTo(s, p, Beginning(h.pc.req)).(exclusive := Some(p))
      case LoadCounter(_) => MoveTo(s, p, AfterLoad(s, h.pc.req))
      case MarkOdd(_) => MoveTo(s, p, Writing(h.pc.req, 0)).(counter := s.counter + 1)
      case MarkMissed(_) => MoveTo(s, p, AfterLoad(s, h.pc.req))
      case Store(_) =>
        MoveTo(s, p, Writing(h.pc.req, h.pc.done + 1))
        .(mem := s.mem[h.pc.req.StoreAt(h.pc.done) := h.pc.req.StoreByte(h.pc.done)])
      case MarkEven(_) =>
        MoveTo(s, p, Unlocking).(counter := s.counter + 1, published := s.published + [Promised(s, h.pc.req)])
      case Unlock(_) => MoveTo(Dropped(s, p), p, Idle)
      case Panic(_) => MoveTo(Dropped(s, p), p, Idle)
      case Read(_) => MoveTo(s, p, AtHead)
      case LoadHead(_) => MoveTo(s, p, if IsOdd(s.counter) then Probing(s.counter) else Copying(s.counter, []))
      case CopyByte(_) => MoveTo(s, p, Copying(h.pc.before, h.pc.buf + [s.mem[|h.pc.buf|]]))
      case Recheck(_) =>
        if h.pc.before == s.counter then
          var acc := Accepted(h.pc.buf, |s.published| - 1);
          Answered(s, p, Some(acc), Published(acc))
        else MoveTo(s, p, AtHead)
      case ProbeTaken(_) => MoveTo(s, p, Holding(h.pc.odd)).(shared := s.shared + {p})
      case ProbeRefused(_) => MoveTo(s, p, AtHead)
      case ProbeFailed(_) => MoveTo(s, p, AtHead)
      case Reload(_) => MoveTo(s, p, if s.counter == h.pc.odd then Salvaging(h.pc.odd, []) else Resuming)
      case SalvageByte(_) => MoveTo(s, p, Salvaging(h.pc.odd, h.pc.buf + [s.mem[|h.pc.buf|]]))
      case Release(_) =>
        if h.pc.Resuming? then MoveTo(Dropped(s, p), p, AtHead)
        else
          Answered(Dropped(s, p), p, h.last,
                   if h.last.Some? then Published(h.last.value)
                   else NothingPublished(Decode(h.pc.buf).(root := ZeroRoot())))
  }

  // ------------------------------------------------------------------ runs

  /** `steps` can be taken one after the other from `s`. */
  ghost predicate CanRun(s: State, steps: seq<Step>)
    requires |s.mem| == PAYLOAD_LEN && |s.published| >= 1
    decreases |steps|
  {
    steps == [] || (Enabled(s, steps[0]) && CanRun(Apply(s, steps[0]), steps[1..]))
  }

  ghost function Run(s: State, steps: seq<Step>): (t: State)
    requires |s.mem| == PAYLOAD_LEN && |s.published| >= 1 && CanRun(s, steps)
    ensures |t.mem| == PAYLOAD_LEN && |t.published| >= 1
    decreases |steps|
  {
    if steps == [] then s else Run(Apply(s, steps[0]), steps[1..])
  }
}
