/** The file-backed blob store as steps: puts, gets and sweeps of any number of processes, which may
    fail or die between any two file operations. One step is one file operation or one byte. */
module BlobModel {
  import opened Bytes
  import opened BlobNames

  type Hasher = seq<byte> -> Hash32

  datatype Request = Put(bytes: seq<byte>) | Get(hash: Hash32)

  datatype Answer =
    | Stored(hash: Hash32)
    | Found(bytes: seq<byte>)
    | Absent
    | Corrupt
    | Failed

  /** Where a call has got to. A put that finds its blob present reads it back first. */
  datatype Pc =
    | Checking
    | Opening(hash: Hash32)
    | Reading(hash: Hash32, inode: nat, buf: seq<byte>)
    | Naming
    | Creating(name: Entry)
    | Writing(name: Entry, inode: nat, count: nat)
    | Renaming(name: Entry)
    | Done(answer: Answer)

  datatype Task = Task(pid: nat, request: Request, pc: Pc)

  /** The files, the directory entries, each live process with its temporary-name counter, the calls
      in flight, and every byte string a put was ever asked to store. */
  datatype State = State(
    inodes: map<nat, seq<byte>>, next: nat, dir: map<Entry, nat>,
    procs: map<nat, nat>, tasks: map<nat, Task>, offered: set<seq<byte>>)

  datatype Step =
    | Spawn(pid: nat)
    | Crash(pid: nat)
    | Begin(task: nat, pid: nat, request: Request)
    | Advance(task: nat)
    | Fail(task: nat)
    | Sweep(entry: Entry)

  predicate InFlight(s: State, t: nat) {
    t in s.tasks && !s.tasks[t].pc.Done?
  }

  /** A call can advance when its process lives and the file it has open exists; every reachable
      state has both. */
  predicate CanAdvance(s: State, t: nat) {
    && InFlight(s, t) && s.tasks[t].pid in s.procs
    && (s.tasks[t].pc.Reading? || s.tasks[t].pc.Writing? ==> s.tasks[t].pc.inode in s.inodes)
    && (s.tasks[t].request.Get? ==> s.tasks[t].pc.Opening? || s.tasks[t].pc.Reading?)
  }

  predicate Enabled(s: State, step: Step) {
    match step
    case Spawn(pid) => pid !in s.procs
    case Crash(pid) => pid in s.procs
    case Begin(t, pid, _) => t !in s.tasks && pid in s.procs
    case Advance(t) => CanAdvance(s, t)
    case Fail(t) => InFlight(s, t)
    case Sweep(e) => e in s.dir && SweepMatches(PathOf(e))
  }

  function At(s: State, t: nat, pc: Pc): State
    requires t in s.tasks
  {
    s.(tasks := s.tasks[t := s.tasks[t].(pc := pc)])
  }

  /** What a read ends in, once the whole file is in the buffer. */
  function Verified(sigma: Hasher, request: Request, hash: Hash32, buf: seq<byte>): Answer {
    if sigma(buf) != hash then Corrupt
    else match request case Get(_) => Found(buf) case Put(_) => Stored(hash)
  }

  /** Of the calls, only where `t` has got to may differ. */
  predicate OnlyMoves(s: State, s': State, t: nat) {
    t in s.tasks && t in s'.tasks && s'.tasks == s.tasks[t := s.tasks[t].(pc := s'.tasks[t].pc)]
  }

  function AdvanceRead(sigma: Hasher, s: State, t: nat): (s': State)
    requires CanAdvance(s, t) && (s.tasks[t].pc.Opening? || s.tasks[t].pc.Reading?)
    ensures OnlyMoves(s, s', t)
  {
    var task := s.tasks[t];
    match task.pc
    case Opening(h) =>
      if Final(h) in s.dir then At(s, t, Reading(h, s.dir[Final(h)], []))
      else At(s, t, if task.request.Get? then Done(Absent) else Naming)
    case Reading(h, i, buf) =>
      var file := s.inodes[i];
      if |buf| < |file| then At(s, t, Reading(h, i, buf + [file[|buf|]]))
      else At(s, t, Done(Verified(sigma, task.request, h, buf)))
  }

  function AdvancePut(sigma: Hasher, s: State, t: nat): (s': State)
    requires CanAdvance(s, t) && !s.tasks[t].pc.Opening? && !s.tasks[t].pc.Reading?
    ensures OnlyMoves(s, s', t)
  {
    var task := s.tasks[t];
    var bytes := task.request.bytes;
    var h := sigma(bytes);
    match task.pc
    case Checking => At(s, t, if Final(h) in s.dir then Opening(h) else Naming)
    case Naming =>
      var nonce := s.procs[task.pid];
      At(s.(procs := s.procs[task.pid := nonce + 1]), t, Creating(Temp(task.pid, nonce, h)))
    case Creating(name) =>
      if name in s.dir then At(s, t, Done(Failed))
      else At(s.(inodes := s.inodes[s.next := []], next := s.next + 1, dir := s.dir[name := s.next]),
              t, Writing(name, s.next, 0))
    case Writing(name, i, k) =>
      if k < |bytes| then
        At(s.(inodes := s.inodes[i := s.inodes[i] + [bytes[k]]]), t, Writing(name, i, k + 1))
      else At(s, t, Renaming(name))
    case Renaming(name) =>
      if name !in s.dir then At(s, t, Done(Failed))
      else At(s.(dir := (s.dir - {name})[Final(h) := s.dir[name]]), t, Done(Stored(h)))
  }

  function Apply(sigma: Hasher, s: State, step: Step): State
    requires Enabled(s, step)
  {
    match step
    case Spawn(pid) => s.(procs := s.procs[pid := 0])
    case Crash(pid) =>
      s.(procs := s.procs - {pid}, tasks := map t | t in s.tasks && s.tasks[t].pid != pid :: s.tasks[t])
    case Begin(t, pid, request) =>
      var pc := if request.Put? then Checking else Opening(request.hash);
      s.(tasks := s.tasks[t := Task(pid, request, pc)],
         offered := if request.Put? then s.offered + {request.bytes} else s.offered)
    case Advance(t) =>
      if s.tasks[t].pc.Opening? || s.tasks[t].pc.Reading? then AdvanceRead(sigma, s, t) else AdvancePut(sigma, s, t)
    case Fail(t) => At(s, t, Done(Failed))
    case Sweep(e) => s.(dir := s.dir - {e})
  }

  predicate CanRun(sigma: Hasher, s: State, steps: seq<Step>)
    decreases |steps|
  {
    steps == [] || (Enabled(s, steps[0]) && CanRun(sigma, Apply(sigma, s, steps[0]), steps[1..]))
  }

  function Run(sigma: Hasher, s: State, steps: seq<Step>): State
    requires CanRun(sigma, s, steps)
    decreases |steps|
  {
    if steps == [] then s else Run(sigma, Apply(sigma, s, steps[0]), steps[1..])
  }

  function Empty(): State {
    State(map[], 0, map[], map[], map[], {})
  }
}
