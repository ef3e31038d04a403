/** What every step of the blob store keeps: a final file is never written again, and holds bytes
    that hash to its name. */
module BlobInvariant {
  import opened Bytes
  import opened BlobNames
  import opened BlobModel

  ghost predicate Unwritten(s: State, i: nat) {
    forall t :: t in s.tasks && s.tasks[t].pc.Writing? ==> s.tasks[t].pc.inode != i
  }

  /** A file nobody writes any more, whose bytes were offered to a put and hash to `h`. */
  ghost predicate Sealed(sigma: Hasher, s: State, i: nat, h: Hash32) {
    && i in s.inodes && sigma(s.inodes[i]) == h && s.inodes[i] in s.offered && Unwritten(s, i)
  }

  ghost predicate EntryOk(sigma: Hasher, s: State, e: Entry)
    requires e in s.dir
  {
    s.dir[e] in s.inodes && (e.Final? ==> Sealed(sigma, s, s.dir[e], e.hash))
  }

  predicate HasName(pc: Pc) {
    pc.Creating? || pc.Writing? || pc.Renaming?
  }

  /** A put owns its temporary name: made from its process and a counter value already passed. */
  predicate NameOk(sigma: Hasher, s: State, task: Task)
    requires HasName(task.pc)
  {
    && task.request.Put? && task.pid in s.procs
    && task.pc.name.Temp? && task.pc.name.pid == task.pid && task.pc.name.nonce < s.procs[task.pid]
  }

  predicate KeyOk(sigma: Hasher, request: Request, h: Hash32) {
    match request case Put(bytes) => h == sigma(bytes) case Get(hash) => h == hash
  }

  /** A finished put is stored or failed; a finished get found bytes with the hash asked for, or
      nothing; neither ever met a corrupt file. */
  predicate AnswerOk(sigma: Hasher, s: State, request: Request, answer: Answer) {
    match answer
    case Stored(h) => request.Put? && h == sigma(request.bytes) && Final(h) in s.dir
    case Found(bytes) =>
      request.Get? && sigma(bytes) == request.hash && bytes in s.offered && Final(request.hash) in s.dir
    case Absent => request.Get?
    case Corrupt => false
    case Failed => true
  }

  ghost predicate PcOk(sigma: Hasher, s: State, task: Task) {
    match task.pc
    case Checking => task.request.Put?
    case Opening(h) => KeyOk(sigma, task.request, h)
    case Reading(h, i, buf) =>
      KeyOk(sigma, task.request, h) && Final(h) in s.dir && Sealed(sigma, s, i, h) && buf <= s.inodes[i]
    case Naming => task.request.Put?
    case Creating(name) => NameOk(sigma, s, task)
    case Writing(name, i, k) =>
      && NameOk(sigma, s, task) && i in s.inodes && k <= |task.request.bytes|
      && s.inodes[i] == task.request.bytes[..k] && (name in s.dir ==> s.dir[name] == i)
    case Renaming(name) =>
      && NameOk(sigma, s, task)
      && (name in s.dir ==>
            Sealed(sigma, s, s.dir[name], sigma(task.request.bytes)) && s.inodes[s.dir[name]] == task.request.bytes)
    case Done(answer) => AnswerOk(sigma, s, task.request, answer)
  }

  ghost predicate TaskOk(sigma: Hasher, s: State, t: nat)
    requires t in s.tasks
  {
    && s.tasks[t].pid in s.procs
    && (s.tasks[t].request.Put? ==> s.tasks[t].request.bytes in s.offered)
    && PcOk(sigma, s, s.tasks[t])
  }

  /** Two calls in flight never share a temporary name, nor a file being written. */
  predicate TasksApart(a: Task, b: Task) {
    && (HasName(a.pc) && HasName(b.pc) ==> a.pc.name != b.pc.name)
    && (a.pc.Writing? && b.pc.Writing? ==> a.pc.inode != b.pc.inode)
  }

  ghost predicate Apart(s: State) {
    forall t, u :: t in s.tasks && u in s.tasks && t != u ==> TasksApart(s.tasks[t], s.tasks[u])
  }

  ghost predicate Inv(sigma: Hasher, s: State) {
    && (forall i :: i in s.inodes ==> i < s.next)
    && (forall e :: e in s.dir ==> EntryOk(sigma, s, e))
    && (forall t :: t in s.tasks ==> TaskOk(sigma, s, t))
    && Apart(s)
  }

  // ------------------------------------------------------------------ what a step leaves alone

  /** From `s` to `s'`, in the eyes of every call but `t` (any negative `t` is no call): no file that
      is not being written changes, no blob disappears, and no temporary name but `t`'s appears. */
  ghost predicate Frame(s: State, s': State, t: int) {
    && s.offered <= s'.offered && s.inodes.Keys <= s'.inodes.Keys
    && (forall h :: Final(h) in s.dir ==> Final(h) in s'.dir)
    && (forall i :: i in s.inodes && Unwritten(s, i) ==>
          i in s'.inodes && s'.inodes[i] == s.inodes[i] && Unwritten(s', i))
    && (forall u :: u in s.tasks && u != t && s.tasks[u].pc.Writing? && s.tasks[u].pc.inode in s.inodes ==>
          s.tasks[u].pc.inode in s'.inodes && s'.inodes[s.tasks[u].pc.inode] == s.inodes[s.tasks[u].pc.inode])
    && (forall u :: u in s.tasks && u != t && HasName(s.tasks[u].pc) && s.tasks[u].pc.name in s'.dir ==>
          s.tasks[u].pc.name in s.dir && s'.dir[s.tasks[u].pc.name] == s.dir[s.tasks[u].pc.name])
    && (forall p :: p in s.procs && p in s'.procs ==> s'.procs[p] >= s.procs[p])
  }

  lemma OtherTaskOk(sigma: Hasher, s: State, s': State, t: int, u: nat)
    requires u in s.tasks && u != t && TaskOk(sigma, s, u) && Frame(s, s', t)
    requires u in s'.tasks && s'.tasks[u] == s.tasks[u] && s.tasks[u].pid in s'.procs
    ensures TaskOk(sigma, s', u)
  {
  }

  lemma OldEntryOk(sigma: Hasher, s: State, s': State, t: int, e: Entry)
    requires e in s.dir && EntryOk(sigma, s, e) && Frame(s, s', t)
    requires e in s'.dir && s'.dir[e] == s.dir[e]
    ensures EntryOk(sigma, s', e)
  {
  }

  /** A step that touches only call `t` keeps the invariant when it keeps `t`'s part of it. */
  lemma InvFromFrame(sigma: Hasher, s: State, s': State, t: int)
    requires Inv(sigma, s) && Frame(s, s', t)
    requires forall i :: i in s'.inodes ==> i < s'.next
    requires forall e :: e in s'.dir ==> (e in s.dir && s'.dir[e] == s.dir[e]) || EntryOk(sigma, s', e)
    requires forall u :: u in s'.tasks && u != t ==>
               u in s.tasks && s'.tasks[u] == s.tasks[u] && s.tasks[u].pid in s'.procs
    requires t in s'.tasks ==> TaskOk(sigma, s', t)
    requires t in s'.tasks ==> forall u :: u in s'.tasks && u != t ==> TasksApart(s'.tasks[t], s'.tasks[u])
    ensures Inv(sigma, s')
  {
    forall e | e in s'.dir ensures EntryOk(sigma, s', e) {
      if e in s.dir && s'.dir[e] == s.dir[e] {
        OldEntryOk(sigma, s, s', t, e);
      }
    }
    forall u | u in s'.tasks ensures TaskOk(sigma, s', u) {
      if u != t {
        OtherTaskOk(sigma, s, s', t, u);
      }
    }
    assert Apart(s') by {
      forall a, b | a in s'.tasks && b in s'.tasks && a != b ensures TasksApart(s'.tasks[a], s'.tasks[b]) {
        if b == t {
          assert TasksApart(s'.tasks[t], s'.tasks[a]);
        }
      }
    }
  }

  // ------------------------------------------------------------------ steps

  /** A call that only moves on, without starting to write and without a new name. */
  lemma MoveKeepsInv(sigma: Hasher, s: State, t: nat, pc: Pc, s': State)
    requires Inv(sigma, s) && t in s.tasks && s' == At(s, t, pc)
    requires !pc.Writing? && (HasName(pc) ==> HasName(s.tasks[t].pc) && pc.name == s.tasks[t].pc.name)
    requires PcOk(sigma, s', s'.tasks[t])
    ensures Inv(sigma, s')
  {
    assert TaskOk(sigma, s, t);
    assert forall i :: Unwritten(s, i) ==> Unwritten(s', i);
    assert Frame(s, s', t);
    forall u | u in s'.tasks && u != t ensures TasksApart(s'.tasks[t], s'.tasks[u]) {
      assert TasksApart(s.tasks[t], s.tasks[u]);
    }
    InvFromFrame(sigma, s, s', t);
  }

  lemma PrefixGrows(buf: seq<byte>, file: seq<byte>)
    requires buf <= file
    ensures |buf| < |file| ==> buf + [file[|buf|]] <= file
    ensures |buf| >= |file| ==> buf == file
  {
  }

  lemma ReadingKeepsInv(sigma: Hasher, s: State, t: nat, s': State)
    requires Inv(sigma, s) && CanAdvance(s, t) && s.tasks[t].pc.Reading? && s' == AdvanceRead(sigma, s, t)
    ensures Inv(sigma, s')
  {
    assert TaskOk(sigma, s, t);
    var pc := s.tasks[t].pc;
    PrefixGrows(pc.buf, s.inodes[pc.inode]);
    assert Unwritten(s', pc.inode);
    MoveKeepsInv(sigma, s, t, s'.tasks[t].pc, s');
  }

  lemma OpeningKeepsInv(sigma: Hasher, s: State, t: nat, s': State)
    requires Inv(sigma, s) && CanAdvance(s, t) && s.tasks[t].pc.Opening? && s' == AdvanceRead(sigma, s, t)
    ensures Inv(sigma, s')
  {
    assert TaskOk(sigma, s, t);
    var blob := Final(s.tasks[t].pc.hash);
    if blob in s.dir {
      assert EntryOk(sigma, s, blob);
      assert Unwritten(s', s.dir[blob]);
    }
    MoveKeepsInv(sigma, s, t, s'.tasks[t].pc, s');
  }

  lemma NamingFrame(sigma: Hasher, s: State, t: nat, s': State)
    requires Inv(sigma, s) && CanAdvance(s, t) && s.tasks[t].pc.Naming? && s.tasks[t].request.Put?
    requires s' == AdvancePut(sigma, s, t)
    ensures Frame(s, s', t)
  {
    assert TaskOk(sigma, s, t);
    assert forall i :: Unwritten(s, i) ==> Unwritten(s', i);
  }

  lemma NamingKeepsInv(sigma: Hasher, s: State, t: nat, s': State)
    requires Inv(sigma, s) && CanAdvance(s, t) && s.tasks[t].pc.Naming? && s.tasks[t].request.Put?
    requires s' == AdvancePut(sigma, s, t)
    ensures Inv(sigma, s')
  {
    assert TaskOk(sigma, s, t);
    NamingFrame(sigma, s, t, s');
    forall u | u in s'.tasks && u != t ensures TasksApart(s'.tasks[t], s'.tasks[u]) {
      assert TaskOk(sigma, s, u);
    }
    InvFromFrame(sigma, s, s', t);
  }

  lemma CreatingFrame(sigma: Hasher, s: State, t: nat, s': State)
    requires Inv(sigma, s) && CanAdvance(s, t) && s.tasks[t].pc.Creating? && s.tasks[t].request.Put?
    requires s.tasks[t].pc.name !in s.dir && s' == AdvancePut(sigma, s, t)
    ensures Frame(s, s', t)
  {
    assert TaskOk(sigma, s, t);
    assert forall i :: i in s.inodes && Unwritten(s, i) ==> Unwritten(s', i);
    forall u | u in s.tasks && u != t ensures TasksApart(s.tasks[t], s.tasks[u]) { }
  }

  lemma CreatingKeepsInv(sigma: Hasher, s: State, t: nat, s': State)
    requires Inv(sigma, s) && CanAdvance(s, t) && s.tasks[t].pc.Creating? && s.tasks[t].request.Put?
    requires s.tasks[t].pc.name !in s.dir && s' == AdvancePut(sigma, s, t)
    ensures Inv(sigma, s')
  {
    assert TaskOk(sigma, s, t);
    CreatingFrame(sigma, s, t, s');
    forall u | u in s'.tasks && u != t ensures TasksApart(s'.tasks[t], s'.tasks[u]) {
      assert TaskOk(sigma, s, u) && TasksApart(s.tasks[t], s.tasks[u]);
    }
    InvFromFrame(sigma, s, s', t);
  }

  lemma AppendedPrefix(bytes: seq<byte>, k: nat)
    requires k < |bytes|
    ensures bytes[..k] + [bytes[k]] == bytes[..k + 1]
  {
  }

  lemma AppendFrame(sigma: Hasher, s: State, t: nat, s': State)
    requires Inv(sigma, s) && CanAdvance(s, t) && s.tasks[t].pc.Writing? && s.tasks[t].request.Put?
    requires s.tasks[t].pc.count < |s.tasks[t].request.bytes| && s' == AdvancePut(sigma, s, t)
    ensures Frame(s, s', t)
  {
    assert TaskOk(sigma, s, t);
    assert forall i :: Unwritten(s, i) ==> i != s.tasks[t].pc.inode && Unwritten(s', i);
    forall u | u in s.tasks && u != t ensures TasksApart(s.tasks[t], s.tasks[u]) { }
  }

  lemma AppendKeepsInv(sigma: Hasher, s: State, t: nat, s': State)
    requires Inv(sigma, s) && CanAdvance(s, t) && s.tasks[t].pc.Writing? && s.tasks[t].request.Put?
    requires s.tasks[t].pc.count < |s.tasks[t].request.bytes| && s' == AdvancePut(sigma, s, t)
    ensures Inv(sigma, s')
  {
    assert TaskOk(sigma, s, t);
    AppendedPrefix(s.tasks[t].request.bytes, s.tasks[t].pc.count);
    AppendFrame(sigma, s, t, s');
    forall u | u in s'.tasks && u != t ensures TasksApart(s'.tasks[t], s'.tasks[u]) {
      assert TasksApart(s.tasks[t], s.tasks[u]);
    }
    InvFromFrame(sigma, s, s', t);
  }

  lemma WrittenKeepsInv(sigma: Hasher, s: State, t: nat, s': State)
    requires Inv(sigma, s) && CanAdvance(s, t) && s.tasks[t].pc.Writing? && s.tasks[t].request.Put?
    requires s.tasks[t].pc.count >= |s.tasks[t].request.bytes| && s' == AdvancePut(sigma, s, t)
    ensures Inv(sigma, s')
  {
    var pc := s.tasks[t].pc;
    assert TaskOk(sigma, s, t);
    assert s.inodes[pc.inode] == s.tasks[t].request.bytes;
    assert Unwritten(s', pc.inode) by {
      forall u | u in s'.tasks && s'.tasks[u].pc.Writing? ensures s'.tasks[u].pc.inode != pc.inode {
        assert TasksApart(s.tasks[t], s.tasks[u]);
      }
    }
    MoveKeepsInv(sigma, s, t, Renaming(pc.name), s');
  }

  lemma RenameFrame(sigma: Hasher, s: State, t: nat, s': State)
    requires Inv(sigma, s) && CanAdvance(s, t) && s.tasks[t].pc.Renaming? && s.tasks[t].request.Put?
    requires s.tasks[t].pc.name in s.dir && s' == AdvancePut(sigma, s, t)
    ensures Frame(s, s', t)
  {
    assert TaskOk(sigma, s, t);
    assert forall i :: Unwritten(s, i) ==> Unwritten(s', i);
    forall u | u in s.tasks && HasName(s.tasks[u].pc) ensures s.tasks[u].pc.name.Temp? {
      assert TaskOk(sigma, s, u);
    }
  }

  lemma RenameKeepsInv(sigma: Hasher, s: State, t: nat, s': State)
    requires Inv(sigma, s) && CanAdvance(s, t) && s.tasks[t].pc.Renaming? && s.tasks[t].request.Put?
    requires s.tasks[t].pc.name in s.dir && s' == AdvancePut(sigma, s, t)
    ensures Inv(sigma, s')
  {
    assert TaskOk(sigma, s, t);
    RenameFrame(sigma, s, t, s');
    assert EntryOk(sigma, s', Final(sigma(s.tasks[t].request.bytes)));
    forall u | u in s'.tasks && u != t ensures TasksApart(s'.tasks[t], s'.tasks[u]) {
      assert TaskOk(sigma, s, u);
    }
    InvFromFrame(sigma, s, s', t);
  }

  lemma PutKeepsInv(sigma: Hasher, s: State, t: nat)
    requires Inv(sigma, s) && CanAdvance(s, t) && !s.tasks[t].pc.Opening? && !s.tasks[t].pc.Reading?
    ensures Inv(sigma, AdvancePut(sigma, s, t))
  {
    assert TaskOk(sigma, s, t);
    var task := s.tasks[t];
    var s' := AdvancePut(sigma, s, t);
    match task.pc
    case Checking => MoveKeepsInv(sigma, s, t, s'.tasks[t].pc, s');
    case Naming => NamingKeepsInv(sigma, s, t, s');
    case Creating(name) =>
      if name in s.dir { MoveKeepsInv(sigma, s, t, Done(Failed), s'); } else { CreatingKeepsInv(sigma, s, t, s'); }
    case Writing(_, _, k) =>
      if k < |task.request.bytes| { AppendKeepsInv(sigma, s, t, s'); } else { WrittenKeepsInv(sigma, s, t, s'); }
    case Renaming(name) =>
      if name in s.dir { RenameKeepsInv(sigma, s, t, s'); } else { MoveKeepsInv(sigma, s, t, Done(Failed), s'); }
  }

  /** A process that dies takes its calls with it; its temporary files stay behind. */
  lemma CrashKeepsInv(sigma: Hasher, s: State, pid: nat, s': State)
    requires Inv(sigma, s) && Enabled(s, Crash(pid)) && s' == Apply(sigma, s, Crash(pid))
    ensures Inv(sigma, s')
  {
    assert forall i :: Unwritten(s, i) ==> Unwritten(s', i);
    forall u | u in s.tasks ensures TaskOk(sigma, s, u) { }
    assert Frame(s, s', -1);
    InvFromFrame(sigma, s, s', -1);
  }

  lemma BeginFrame(sigma: Hasher, s: State, t: nat, pid: nat, request: Request, s': State)
    requires Inv(sigma, s) && Enabled(s, Begin(t, pid, request)) && s' == Apply(sigma, s, Begin(t, pid, request))
    ensures Frame(s, s', t)
  {
    assert forall i :: Unwritten(s, i) ==> Unwritten(s', i);
  }

  lemma BeginKeepsInv(sigma: Hasher, s: State, t: nat, pid: nat, request: Request, s': State)
    requires Inv(sigma, s) && Enabled(s, Begin(t, pid, request)) && s' == Apply(sigma, s, Begin(t, pid, request))
    ensures Inv(sigma, s')
  {
    BeginFrame(sigma, s, t, pid, request, s');
    InvFromFrame(sigma, s, s', t);
  }

  lemma SweepKeepsInv(sigma: Hasher, s: State, e: Entry, s': State)
    requires Inv(sigma, s) && e in s.dir && e.Temp? && s' == s.(dir := s.dir - {e})
    ensures Inv(sigma, s')
  {
    assert forall i :: Unwritten(s, i) ==> Unwritten(s', i);
    assert Frame(s, s', -1);
    InvFromFrame(sigma, s, s', -1);
  }

  lemma AdvanceKeepsInv(sigma: Hasher, s: State, t: nat)
    requires Inv(sigma, s) && CanAdvance(s, t)
    ensures Inv(sigma, Apply(sigma, s, Advance(t)))
  {
    var pc := s.tasks[t].pc;
    if pc.Opening? {
      OpeningKeepsInv(sigma, s, t, AdvanceRead(sigma, s, t));
    } else if pc.Reading? {
      ReadingKeepsInv(sigma, s, t, AdvanceRead(sigma, s, t));
    } else {
      PutKeepsInv(sigma, s, t);
    }
  }

  lemma SpawnKeepsInv(sigma: Hasher, s: State, pid: nat, s': State)
    requires Inv(sigma, s) && pid !in s.procs && s' == s.(procs := s.procs[pid := 0])
    ensures Inv(sigma, s')
  {
    assert forall i :: Unwritten(s, i) ==> Unwritten(s', i);
    forall u | u in s.tasks ensures s.tasks[u].pid in s'.procs {
      assert TaskOk(sigma, s, u);
    }
    assert Frame(s, s', -1);
    InvFromFrame(sigma, s, s', -1);
  }

  /** Every step of every process keeps the invariant. */
  lemma StepKeepsInv(sigma: Hasher, s: State, step: Step)
    requires Inv(sigma, s) && Enabled(s, step)
    ensures Inv(sigma, Apply(sigma, s, step))
  {
    match step
    case Spawn(pid) => SpawnKeepsInv(sigma, s, pid, Apply(sigma, s, step));
    case Crash(pid) => CrashKeepsInv(sigma, s, pid, Apply(sigma, s, step));
    case Begin(t, pid, request) => BeginKeepsInv(sigma, s, t, pid, request, Apply(sigma, s, step));
    case Advance(t) => AdvanceKeepsInv(sigma, s, t);
    case Fail(t) => MoveKeepsInv(sigma, s, t, Done(Failed), Apply(sigma, s, step));
    case Sweep(e) => SweepMatchesTemps(e); SweepKeepsInv(sigma, s, e, Apply(sigma, s, step));
  }

  /** The invariant holds after every run. */
  lemma {:induction false} RunKeepsInv(sigma: Hasher, s: State, steps: seq<Step>)
    requires Inv(sigma, s) && CanRun(sigma, s, steps)
    ensures Inv(sigma, Run(sigma, s, steps))
    decreases |steps|
  {
    if steps != [] {
      StepKeepsInv(sigma, s, steps[0]);
      RunKeepsInv(sigma, Apply(sigma, s, steps[0]), steps[1..]);
    }
  }

  /** No call in flight is ever stuck: it always has a next step. */
  lemma InFlightCanAdvance(sigma: Hasher, steps: seq<Step>, t: nat)
    requires CanRun(sigma, Empty(), steps) && InFlight(Run(sigma, Empty(), steps), t)
    ensures Enabled(Run(sigma, Empty(), steps), Advance(t))
  {
    RunKeepsInv(sigma, Empty(), steps);
    assert TaskOk(sigma, Run(sigma, Empty(), steps), t);
  }
}
