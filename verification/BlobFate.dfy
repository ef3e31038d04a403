/** How every call of the blob store ends: exactly when it fails, and after how many steps it is done. */
module BlobFate {
  import opened Bytes
  import opened BlobNames
  import opened BlobModel
  import opened BlobInvariant

  // ------------------------------------------------------------------ what makes a call fail

  predicate IsOwn(step: Step, t: nat) {
    step == Advance(t) || step == Fail(t)
  }

  /** The call has a temporary file. */
  predicate HasFile(pc: Pc) {
    pc.Writing? || pc.Renaming?
  }

  /** The step makes a file operation of call `t` fail, takes the name it is about to create for a file
      that is there already, or sweeps its temporary file away. */
  predicate Spoils(s: State, step: Step, t: nat) {
    && InFlight(s, t)
    && var pc := s.tasks[t].pc;
       || step == Fail(t)
       || (step == Advance(t) && pc.Creating? && pc.name in s.dir)
       || (HasFile(pc) && step == Sweep(pc.name))
  }

  predicate Spoiled(sigma: Hasher, s: State, steps: seq<Step>, t: nat)
    requires CanRun(sigma, s, steps)
    decreases |steps|
  {
    steps != [] && (Spoils(s, steps[0], t) || Spoiled(sigma, Apply(sigma, s, steps[0]), steps[1..], t))
  }

  /** A put has stored its bytes under their hash; a get has found bytes, or nothing. */
  predicate Succeeds(sigma: Hasher, request: Request, answer: Answer) {
    match request
    case Put(bytes) => answer == Stored(sigma(bytes))
    case Get(_) => answer.Found? || answer == Absent
  }

  /** What a call may come to, given whether something spoiled it. A spoiled one has failed, or is a put
      whose temporary file is gone; any other still has its file, and ends in success. */
  predicate FateOk(sigma: Hasher, s: State, task: Task, spoiled: bool) {
    match task.pc
    case Done(answer) =>
      if spoiled then answer == Failed else Succeeds(sigma, task.request, answer)
    case Writing(name, _, _) => name in s.dir <==> !spoiled
    case Renaming(name) => name in s.dir <==> !spoiled
    case _ => !spoiled
  }

  // ------------------------------------------------------------------ one step

  lemma OwnReadKeepsFate(sigma: Hasher, s: State, t: nat, s': State)
    requires Inv(sigma, s) && CanAdvance(s, t) && (s.tasks[t].pc.Opening? || s.tasks[t].pc.Reading?)
    requires FateOk(sigma, s, s.tasks[t], false) && s' == AdvanceRead(sigma, s, t)
    ensures FateOk(sigma, s', s'.tasks[t], false)
  {
    assert TaskOk(sigma, s, t);
    if s.tasks[t].pc.Reading? {
      PrefixGrows(s.tasks[t].pc.buf, s.inodes[s.tasks[t].pc.inode]);
    }
  }

  lemma OwnPutKeepsFate(sigma: Hasher, s: State, t: nat, spoiled: bool, s': State)
    requires Inv(sigma, s) && CanAdvance(s, t) && !s.tasks[t].pc.Opening? && !s.tasks[t].pc.Reading?
    requires FateOk(sigma, s, s.tasks[t], spoiled) && s' == AdvancePut(sigma, s, t)
    ensures FateOk(sigma, s', s'.tasks[t], spoiled || Spoils(s, Advance(t), t))
  {
    assert TaskOk(sigma, s, t);
  }

  lemma OtherAdvance(sigma: Hasher, s: State, u: nat, t: nat, s': State)
    requires CanAdvance(s, u) && t in s.tasks && t != u && s' == Apply(sigma, s, Advance(u))
    ensures t in s'.tasks && s'.tasks[t] == s.tasks[t]
  {
  }

  lemma OtherTaskStays(sigma: Hasher, s: State, step: Step, t: nat, s': State)
    requires Enabled(s, step) && t in s.tasks && step != Crash(s.tasks[t].pid) && !IsOwn(step, t)
    requires s' == Apply(sigma, s, step)
    ensures t in s'.tasks && s'.tasks[t] == s.tasks[t]
  {
    if step.Advance? {
      OtherAdvance(sigma, s, step.task, t, s');
    }
  }

  /** Nobody else's step makes or removes a call's temporary file, but a sweep of it. */
  lemma OtherStepKeepsFile(sigma: Hasher, s: State, step: Step, t: nat, s': State)
    requires Inv(sigma, s) && Enabled(s, step) && t in s.tasks && HasFile(s.tasks[t].pc)
    requires !IsOwn(step, t) && s' == Apply(sigma, s, step)
    ensures s.tasks[t].pc.name in s'.dir <==> s.tasks[t].pc.name in s.dir && step != Sweep(s.tasks[t].pc.name)
  {
    assert TaskOk(sigma, s, t);
    if step.Advance? {
      OtherAdvanceKeepsFile(sigma, s, step.task, t, s');
    }
  }

  lemma OtherAdvanceKeepsFile(sigma: Hasher, s: State, u: nat, t: nat, s': State)
    requires Inv(sigma, s) && CanAdvance(s, u) && t in s.tasks && t != u && HasFile(s.tasks[t].pc)
    requires s' == Apply(sigma, s, Advance(u))
    ensures s.tasks[t].pc.name in s'.dir <==> s.tasks[t].pc.name in s.dir
  {
    assert TaskOk(sigma, s, t) && TaskOk(sigma, s, u) && TasksApart(s.tasks[t], s.tasks[u]);
  }

  lemma OtherStepKeepsFate(sigma: Hasher, s: State, step: Step, t: nat, spoiled: bool, s': State)
    requires Inv(sigma, s) && Enabled(s, step) && t in s.tasks && FateOk(sigma, s, s.tasks[t], spoiled)
    requires !IsOwn(step, t) && step != Crash(s.tasks[t].pid) && s' == Apply(sigma, s, step)
    ensures t in s'.tasks && s'.tasks[t] == s.tasks[t]
    ensures FateOk(sigma, s', s'.tasks[t], spoiled || Spoils(s, step, t))
  {
    OtherTaskStays(sigma, s, step, t, s');
    if HasFile(s.tasks[t].pc) {
      OtherStepKeepsFile(sigma, s, step, t, s');
    }
  }

  lemma StepKeepsFate(sigma: Hasher, s: State, step: Step, t: nat, spoiled: bool, s': State)
    requires Inv(sigma, s) && Enabled(s, step) && t in s.tasks && FateOk(sigma, s, s.tasks[t], spoiled)
    requires step != Crash(s.tasks[t].pid) && s' == Apply(sigma, s, step)
    ensures t in s'.tasks && s'.tasks[t].request == s.tasks[t].request && s'.tasks[t].pid == s.tasks[t].pid
    ensures FateOk(sigma, s', s'.tasks[t], spoiled || Spoils(s, step, t))
  {
    if step == Advance(t) {
      if s.tasks[t].pc.Opening? || s.tasks[t].pc.Reading? {
        OwnReadKeepsFate(sigma, s, t, s');
      } else {
        OwnPutKeepsFate(sigma, s, t, spoiled, s');
      }
    } else if step != Fail(t) {
      OtherStepKeepsFate(sigma, s, step, t, spoiled, s');
    }
  }

  // ------------------------------------------------------------------ runs

  lemma {:induction false} RunKeepsFate(sigma: Hasher, s: State, steps: seq<Step>, t: nat, spoiled: bool)
    requires Inv(sigma, s) && CanRun(sigma, s, steps) && t in s.tasks && FateOk(sigma, s, s.tasks[t], spoiled)
    requires Crash(s.tasks[t].pid) !in steps
    ensures var u := Run(sigma, s, steps);
            && t in u.tasks && u.tasks[t].request == s.tasks[t].request
            && FateOk(sigma, u, u.tasks[t], spoiled || Spoiled(sigma, s, steps, t))
    decreases |steps|
  {
    if steps != [] {
      var s' := Apply(sigma, s, steps[0]);
      assert steps[0] in steps;
      StepKeepsInv(sigma, s, steps[0]);
      StepKeepsFate(sigma, s, steps[0], t, spoiled, s');
      RunKeepsFate(sigma, s', steps[1..], t, spoiled || Spoils(s, steps[0], t));
    }
  }

  /** A call whose process lives on, from its beginning in any reachable state. When it is done it has
      failed if and only if one of its file operations was made to fail, its temporary name was taken
      when it came to create it, or its temporary file was swept before the rename. Otherwise a put has
      stored its bytes under their hash, and a get has found bytes or nothing. */
  lemma {:induction false} CallFailsIff(
    sigma: Hasher, s: State, t: nat, pid: nat, request: Request, steps: seq<Step>, begun: State, u: State)
    requires Inv(sigma, s) && Enabled(s, Begin(t, pid, request)) && begun == Apply(sigma, s, Begin(t, pid, request))
    requires CanRun(sigma, begun, steps) && Crash(pid) !in steps && u == Run(sigma, begun, steps)
    ensures t in u.tasks && u.tasks[t].request == request
    ensures u.tasks[t].pc.Done? ==>
              && (u.tasks[t].pc.answer == Failed <==> Spoiled(sigma, begun, steps, t))
              && (u.tasks[t].pc.answer != Failed ==> Succeeds(sigma, request, u.tasks[t].pc.answer))
  {
    StepKeepsInv(sigma, s, Begin(t, pid, request));
    RunKeepsFate(sigma, begun, steps, t, false);
  }

  // ------------------------------------------------------------------ deaths

  /** A process that dies takes exactly its own calls with it, and changes no file and no name. */
  lemma CrashEndsCalls(sigma: Hasher, s: State, pid: nat, s': State)
    requires Enabled(s, Crash(pid)) && s' == Apply(sigma, s, Crash(pid))
    ensures s' == s.(procs := s'.procs, tasks := s'.tasks)
    ensures s'.procs.Keys == s.procs.Keys - {pid} && forall p :: p in s'.procs ==> s'.procs[p] == s.procs[p]
    ensures forall t :: t in s'.tasks <==> t in s.tasks && s.tasks[t].pid != pid
    ensures forall t :: t in s'.tasks ==> s'.tasks[t] == s.tasks[t]
  {
  }

  lemma RunFirst(sigma: Hasher, s: State, step: Step, rest: seq<Step>)
    requires Enabled(s, step) && CanRun(sigma, Apply(sigma, s, step), rest)
    ensures CanRun(sigma, s, [step] + rest) && Run(sigma, s, [step] + rest) == Run(sigma, Apply(sigma, s, step), rest)
  {
    assert ([step] + rest)[1..] == rest;
  }

  /** Check, name, create: the name is taken. */
  lemma {:induction false} PutMeetsLeftover(sigma: Hasher, s: State, pid: nat, t: nat, bytes: seq<byte>)
    returns (steps: seq<Step>)
    requires pid in s.procs && t in s.tasks && s.tasks[t] == Task(pid, Put(bytes), Checking)
    requires Final(sigma(bytes)) !in s.dir && Temp(pid, s.procs[pid], sigma(bytes)) in s.dir
    ensures CanRun(sigma, s, steps) && Fail(t) !in steps
    ensures var u := Run(sigma, s, steps); t in u.tasks && u.tasks[t] == Task(pid, Put(bytes), Done(Failed))
  {
    var named := Apply(sigma, s, Advance(t));
    var creating := Apply(sigma, named, Advance(t));
    RunFirst(sigma, creating, Advance(t), []);
    RunFirst(sigma, named, Advance(t), [Advance(t)] + []);
    RunFirst(sigma, s, Advance(t), [Advance(t)] + ([Advance(t)] + []));
    steps := [Advance(t)] + ([Advance(t)] + ([Advance(t)] + []));
  }

  /** A later process of the same id counts from zero again. So when a dead one left its first file for
      some bytes behind, a put of those bytes as the first of the new process fails. */
  lemma {:induction false} LeftoverFailsPut(sigma: Hasher, s: State, pid: nat, t: nat, bytes: seq<byte>)
    returns (steps: seq<Step>)
    requires pid !in s.procs && t !in s.tasks && Final(sigma(bytes)) !in s.dir && Temp(pid, 0, sigma(bytes)) in s.dir
    ensures CanRun(sigma, s, steps) && Fail(t) !in steps
    ensures var u := Run(sigma, s, steps); t in u.tasks && u.tasks[t] == Task(pid, Put(bytes), Done(Failed))
  {
    var begin := Begin(t, pid, Put(bytes));
    var spawned := Apply(sigma, s, Spawn(pid));
    var rest := PutMeetsLeftover(sigma, Apply(sigma, spawned, begin), pid, t, bytes);
    RunFirst(sigma, spawned, begin, rest);
    RunFirst(sigma, s, Spawn(pid), [begin] + rest);
    steps := [Spawn(pid)] + ([begin] + rest);
  }

  // ------------------------------------------------------------------ puts of what is there

  predicate OnlyReads(pc: Pc) {
    pc.Checking? || pc.Opening? || pc.Reading? || pc.Done?
  }

  lemma FinalStays(sigma: Hasher, s: State, step: Step, h: Hash32)
    requires Inv(sigma, s) && Enabled(s, step) && Final(h) in s.dir
    ensures Final(h) in Apply(sigma, s, step).dir
  {
    if step.Sweep? {
      SweepMatchesTemps(step.entry);
    } else if step.Advance? {
      assert TaskOk(sigma, s, step.task);
    }
  }

  lemma StepOnlyReads(sigma: Hasher, s: State, step: Step, t: nat, s': State)
    requires Inv(sigma, s) && Enabled(s, step) && t in s.tasks && step != Crash(s.tasks[t].pid)
    requires s.tasks[t].request.Put? && OnlyReads(s.tasks[t].pc) && Final(sigma(s.tasks[t].request.bytes)) in s.dir
    requires s' == Apply(sigma, s, step)
    ensures t in s'.tasks && s'.tasks[t] == s.tasks[t].(pc := s'.tasks[t].pc) && OnlyReads(s'.tasks[t].pc)
  {
    assert TaskOk(sigma, s, t);
    if !IsOwn(step, t) {
      OtherTaskStays(sigma, s, step, t, s');
    }
  }

  /** A put of bytes whose blob is there only reads it back: it never creates a file. */
  lemma {:induction false} PresentPutOnlyReads(sigma: Hasher, s: State, steps: seq<Step>, t: nat, u: State)
    requires Inv(sigma, s) && CanRun(sigma, s, steps) && u == Run(sigma, s, steps)
    requires t in s.tasks && Crash(s.tasks[t].pid) !in steps
    requires s.tasks[t].request.Put? && OnlyReads(s.tasks[t].pc) && Final(sigma(s.tasks[t].request.bytes)) in s.dir
    ensures t in u.tasks && OnlyReads(u.tasks[t].pc)
    decreases |steps|
  {
    if steps != [] {
      assert steps[0] in steps;
      StepKeepsInv(sigma, s, steps[0]);
      FinalStays(sigma, s, steps[0], sigma(s.tasks[t].request.bytes));
      StepOnlyReads(sigma, s, steps[0], t, Apply(sigma, s, steps[0]));
      PresentPutOnlyReads(sigma, Apply(sigma, s, steps[0]), steps[1..], t, u);
    }
  }

  // ------------------------------------------------------------------ how long a call takes

  function OwnSteps(steps: seq<Step>, t: nat): nat {
    if steps == [] then 0 else (if IsOwn(steps[0], t) then 1 else 0) + OwnSteps(steps[1..], t)
  }

  /** No byte string offered to any put is longer than `most`. */
  ghost predicate Bounded(s: State, most: nat) {
    forall bytes :: bytes in s.offered ==> |bytes| <= most
  }

  /** Steps a call still needs. */
  function Remaining(task: Task, most: nat): nat {
    match task.pc
    case Checking => most + 7
    case Opening(_) => most + 6
    case Reading(_, _, buf) => if |buf| <= most then most - |buf| + 1 else 0
    case Naming => most + 5
    case Creating(_) => most + 4
    case Writing(_, _, k) => if k <= most then most - k + 2 else 0
    case Renaming(_) => 1
    case Done(_) => 0
  }

  lemma OwnStepShortens(sigma: Hasher, s: State, step: Step, t: nat, most: nat, s': State)
    requires Inv(sigma, s) && Bounded(s, most) && Enabled(s, step) && IsOwn(step, t) && s' == Apply(sigma, s, step)
    ensures Remaining(s'.tasks[t], most) < Remaining(s.tasks[t], most)
  {
    if step == Fail(t) {
      InFlightRemains(sigma, s, t, most);
    } else if s.tasks[t].pc.Opening? || s.tasks[t].pc.Reading? {
      OwnReadShortens(sigma, s, t, most, s');
    } else {
      OwnPutShortens(sigma, s, t, most, s');
    }
  }

  lemma InFlightRemains(sigma: Hasher, s: State, t: nat, most: nat)
    requires Inv(sigma, s) && Bounded(s, most) && InFlight(s, t)
    ensures Remaining(s.tasks[t], most) > 0
  {
    assert TaskOk(sigma, s, t);
    if s.tasks[t].pc.Reading? {
      PrefixGrows(s.tasks[t].pc.buf, s.inodes[s.tasks[t].pc.inode]);
    }
  }

  lemma OwnReadShortens(sigma: Hasher, s: State, t: nat, most: nat, s': State)
    requires Inv(sigma, s) && Bounded(s, most) && CanAdvance(s, t)
    requires (s.tasks[t].pc.Opening? || s.tasks[t].pc.Reading?) && s' == AdvanceRead(sigma, s, t)
    ensures Remaining(s'.tasks[t], most) < Remaining(s.tasks[t], most)
  {
    assert TaskOk(sigma, s, t);
    InFlightRemains(sigma, s, t, most);
    if s.tasks[t].pc.Reading? {
      PrefixGrows(s.tasks[t].pc.buf, s.inodes[s.tasks[t].pc.inode]);
    }
  }

  lemma OwnPutShortens(sigma: Hasher, s: State, t: nat, most: nat, s': State)
    requires Inv(sigma, s) && Bounded(s, most) && CanAdvance(s, t)
    requires !s.tasks[t].pc.Opening? && !s.tasks[t].pc.Reading? && s' == AdvancePut(sigma, s, t)
    ensures Remaining(s'.tasks[t], most) < Remaining(s.tasks[t], most)
  {
    assert TaskOk(sigma, s, t);
  }

  lemma OfferedGrows(sigma: Hasher, s: State, step: Step)
    requires Enabled(s, step)
    ensures s.offered <= Apply(sigma, s, step).offered
  {
  }

  lemma OwnTaskStays(sigma: Hasher, s: State, step: Step, t: nat, s': State)
    requires Enabled(s, step) && IsOwn(step, t) && s' == Apply(sigma, s, step)
    ensures t in s'.tasks && s'.tasks[t].pid == s.tasks[t].pid && s'.tasks[t].request == s.tasks[t].request
  {
  }

  lemma {:induction false} RunShortens(sigma: Hasher, s: State, steps: seq<Step>, t: nat, most: nat, u: State)
    requires Inv(sigma, s) && CanRun(sigma, s, steps) && u == Run(sigma, s, steps) && Bounded(u, most)
    requires t in s.tasks && Crash(s.tasks[t].pid) !in steps
    ensures s.offered <= u.offered && t in u.tasks
    ensures Remaining(u.tasks[t], most) + OwnSteps(steps, t) <= Remaining(s.tasks[t], most)
    decreases |steps|
  {
    if steps != [] {
      var s' := Apply(sigma, s, steps[0]);
      assert steps[0] in steps;
      StepKeepsInv(sigma, s, steps[0]);
      OfferedGrows(sigma, s, steps[0]);
      if IsOwn(steps[0], t) {
        OwnTaskStays(sigma, s, steps[0], t, s');
      } else {
        OtherTaskStays(sigma, s, steps[0], t, s');
      }
      RunShortens(sigma, s', steps[1..], t, most, u);
      if IsOwn(steps[0], t) {
        OwnStepShortens(sigma, s, steps[0], t, most, s');
      }
    }
  }

  /** A call whose process lives on is done after a bounded number of its own steps, however the others
      interleave: seven more than the longest byte string any put was offered. */
  lemma {:induction false} CallEnds(
    sigma: Hasher, s: State, t: nat, pid: nat, request: Request, steps: seq<Step>, begun: State, u: State, most: nat)
    requires Inv(sigma, s) && Enabled(s, Begin(t, pid, request)) && begun == Apply(sigma, s, Begin(t, pid, request))
    requires CanRun(sigma, begun, steps) && Crash(pid) !in steps && u == Run(sigma, begun, steps) && Bounded(u, most)
    ensures t in u.tasks && OwnSteps(steps, t) <= most + 7
    ensures OwnSteps(steps, t) == most + 7 ==> u.tasks[t].pc.Done?
  {
    StepKeepsInv(sigma, s, Begin(t, pid, request));
    RunShortens(sigma, begun, steps, t, most, u);
    RunKeepsInv(sigma, begun, steps);
    if InFlight(u, t) {
      InFlightRemains(sigma, u, t, most);
    }
  }
}
