/** The blobs a run makes visible, against the in-memory store: a map that only grows. */
module BlobRefinement {
  import opened Bytes
  import opened Collections
  import opened Options
  import opened BlobNames
  import opened BlobModel
  import opened BlobInvariant

  // ------------------------------------------------------------------ the in-memory store

  type Blobs = map<Hash32, seq<byte>>

  function MemGet(sigma: Hasher, m: Blobs, h: Hash32): Result<Option<seq<byte>>> {
    if h !in m then Ok(None) else if sigma(m[h]) != h then Err else Ok(Some(m[h]))
  }

  /** The map after a put: unchanged when the key is there, whatever its value. */
  function MemPut(sigma: Hasher, m: Blobs, bytes: seq<byte>): Blobs {
    if sigma(bytes) in m then m else m[sigma(bytes) := bytes]
  }

  class MemBlobStore {
    const sigma: Hasher
    var inner: Blobs

    /** Every stored value hashes to its key. */
    ghost predicate Valid()
      reads this
    {
      forall h :: h in inner ==> sigma(inner[h]) == h
    }

    constructor (sigma: Hasher)
      ensures this.sigma == sigma && inner == map[] && Valid()
    {
      this.sigma := sigma;
      inner := map[];
    }

    method Lookup(h: Hash32) returns (r: Result<Option<seq<byte>>>)
      ensures r == MemGet(sigma, inner, h)
      ensures Valid() ==> r == Ok(if h in inner then Some(inner[h]) else None)
    {
      if h !in inner {
        return Ok(None);
      }
      var bytes := inner[h];
      if sigma(bytes) != h {
        return Err;
      }
      return Ok(Some(bytes));
    }

    /** Stores `bytes` under their hash; a second put of a present key changes nothing and succeeds
        exactly when the value there still verifies. */
    method Store(bytes: seq<byte>) returns (r: Result<Hash32>)
      modifies this
      ensures inner == MemPut(sigma, old(inner), bytes)
      ensures r == (if MemGet(sigma, old(inner), sigma(bytes)).Err? then Err else Ok(sigma(bytes)))
      ensures old(Valid()) ==> Valid() && r == Ok(sigma(bytes))
    {
      var h := sigma(bytes);
      if h in inner {
        var present := Lookup(h);
        return if present.Err? then Err else Ok(h);
      }
      inner := inner[h := bytes];
      return Ok(h);
    }
  }

  /** Puts of `images`, oldest first. */
  function MemPutAll(sigma: Hasher, m: Blobs, images: seq<seq<byte>>): Blobs
    decreases |images|
  {
    if images == [] then m else MemPutAll(sigma, MemPut(sigma, m, images[0]), images[1..])
  }

  /** No key a put finds or makes ever changes or goes. */
  lemma {:induction false} PutsOnlyGrow(sigma: Hasher, m: Blobs, images: seq<seq<byte>>, h: Hash32)
    requires h in m
    ensures h in MemPutAll(sigma, m, images) && MemPutAll(sigma, m, images)[h] == m[h]
    decreases |images|
  {
    if images != [] {
      PutsOnlyGrow(sigma, MemPut(sigma, m, images[0]), images[1..], h);
    }
  }

  // ------------------------------------------------------------------ what a run makes visible

  /** The blobs under their final names. */
  function Visible(s: State): Blobs {
    map e | e in s.dir && e.Final? && s.dir[e] in s.inodes :: e.hash := s.inodes[s.dir[e]]
  }

  lemma VisibleIs(s: State, h: Hash32)
    ensures h in Visible(s) <==> Final(h) in s.dir && s.dir[Final(h)] in s.inodes
    ensures h in Visible(s) ==> Visible(s)[h] == s.inodes[s.dir[Final(h)]]
  {
    if Final(h) in s.dir && s.dir[Final(h)] in s.inodes {
      assert Final(h).hash == h;
    }
  }

  /** No two of the byte strings share a hash. */
  ghost predicate CollisionFree(sigma: Hasher, images: set<seq<byte>>) {
    forall a, b :: a in images && b in images && sigma(a) == sigma(b) ==> a == b
  }

  /** The step that makes a put's bytes visible: a rename that finds its temporary file. */
  predicate Publishes(s: State, step: Step) {
    && step.Advance? && CanAdvance(s, step.task)
    && s.tasks[step.task].pc.Renaming? && s.tasks[step.task].pc.name in s.dir
  }

  /** Everything visible hashes to its key, and was offered to some put. */
  lemma VisibleVerifies(sigma: Hasher, s: State, h: Hash32)
    requires Inv(sigma, s) && h in Visible(s)
    ensures sigma(Visible(s)[h]) == h && Visible(s)[h] in s.offered
  {
    VisibleIs(s, h);
    assert EntryOk(sigma, s, Final(h));
  }

  /** The blob of `h` is the same file with the same bytes, or absent from both. */
  predicate SameBlob(s: State, s': State, h: Hash32) {
    && (Final(h) in s.dir <==> Final(h) in s'.dir)
    && (Final(h) in s.dir ==>
          && s'.dir[Final(h)] == s.dir[Final(h)]
          && s.dir[Final(h)] in s.inodes && s.dir[Final(h)] in s'.inodes
          && s'.inodes[s.dir[Final(h)]] == s.inodes[s.dir[Final(h)]])
  }

  lemma SameBlobVisible(s: State, s': State, h: Hash32)
    requires SameBlob(s, s', h)
    ensures AgreeAt(Visible(s), Visible(s'), h)
  {
    VisibleIs(s, h);
    VisibleIs(s', h);
  }

  lemma SameVisible(s: State, s': State)
    requires forall h :: SameBlob(s, s', h)
    ensures Visible(s') == Visible(s)
  {
    forall h ensures AgreeAt(Visible(s), Visible(s'), h) {
      SameBlobVisible(s, s', h);
    }
    SameMap(Visible(s), Visible(s'));
  }

  /** Only a successful rename changes what is visible. A sweep, a crash, a failure, a read and a
      half-written file change nothing. */
  lemma QuietStep(sigma: Hasher, s: State, step: Step)
    requires Inv(sigma, s) && Enabled(s, step) && !Publishes(s, step)
    ensures Visible(Apply(sigma, s, step)) == Visible(s)
  {
    var s' := Apply(sigma, s, step);
    if step.Sweep? {
      SweepMatchesTemps(step.entry);
    }
    if step.Advance? {
      assert TaskOk(sigma, s, step.task);
    }
    forall h ensures SameBlob(s, s', h) {
      if Final(h) in s.dir {
        assert EntryOk(sigma, s, Final(h));
      }
    }
    SameVisible(s, s');
  }

  /** A rename makes the put's bytes visible, as a put into the in-memory store would. */
  lemma RenameIsPut(sigma: Hasher, s: State, step: Step)
    requires Inv(sigma, s) && Publishes(s, step)
    requires CollisionFree(sigma, s.offered)
    ensures s.tasks[step.task].request.Put?
    ensures Visible(Apply(sigma, s, step)) == MemPut(sigma, Visible(s), s.tasks[step.task].request.bytes)
  {
    assert TaskOk(sigma, s, step.task);
    var s' := Apply(sigma, s, step);
    var bytes := s.tasks[step.task].request.bytes;
    forall h: Hash32
      ensures h in Visible(s') <==> h in MemPut(sigma, Visible(s), bytes)
      ensures h in Visible(s') ==> Visible(s')[h] == MemPut(sigma, Visible(s), bytes)[h]
    {
      RenameAt(sigma, s, step, bytes, h, s');
    }
  }

  lemma RenameAt(sigma: Hasher, s: State, step: Step, bytes: seq<byte>, h: Hash32, s': State)
    requires Inv(sigma, s) && Publishes(s, step) && CollisionFree(sigma, s.offered) && s' == Apply(sigma, s, step)
    requires s.tasks[step.task].request == Put(bytes)
    ensures h in Visible(s') <==> h in MemPut(sigma, Visible(s), bytes)
    ensures h in Visible(s') ==> Visible(s')[h] == MemPut(sigma, Visible(s), bytes)[h]
  {
    assert TaskOk(sigma, s, step.task);
    VisibleIs(s, h);
    VisibleIs(s', h);
    if h == sigma(bytes) && h in Visible(s) {
      VisibleVerifies(sigma, s, h);
    }
  }

  /** The bytes a run publishes, in order. */
  function Published(sigma: Hasher, s: State, steps: seq<Step>): seq<seq<byte>>
    requires CanRun(sigma, s, steps)
    decreases |steps|
  {
    if steps == [] then [] else
      (if Publishes(s, steps[0]) && s.tasks[steps[0].task].request.Put?
       then [s.tasks[steps[0].task].request.bytes] else [])
      + Published(sigma, Apply(sigma, s, steps[0]), steps[1..])
  }

  lemma {:induction false} OfferedOnlyGrows(sigma: Hasher, s: State, steps: seq<Step>)
    requires CanRun(sigma, s, steps)
    ensures s.offered <= Run(sigma, s, steps).offered
    decreases |steps|
  {
    if steps != [] {
      OfferedOnlyGrows(sigma, Apply(sigma, s, steps[0]), steps[1..]);
    }
  }

  lemma PutAllOfStep(sigma: Hasher, m: Blobs, head: seq<seq<byte>>, rest: seq<seq<byte>>)
    requires |head| <= 1
    ensures MemPutAll(sigma, m, head + rest) ==
            MemPutAll(sigma, if head == [] then m else MemPut(sigma, m, head[0]), rest)
  {
    if head == [] {
      assert head + rest == rest;
    } else {
      assert (head + rest)[1..] == rest;
    }
  }

  /** For every run, with crashes, sweeps and failures anywhere, what is visible at the end is the
      in-memory store after the same puts, in the order of their renames. */
  lemma {:induction false} RunRefinesMemory(sigma: Hasher, s: State, steps: seq<Step>)
    requires Inv(sigma, s) && CanRun(sigma, s, steps)
    requires CollisionFree(sigma, Run(sigma, s, steps).offered)
    ensures Visible(Run(sigma, s, steps)) == MemPutAll(sigma, Visible(s), Published(sigma, s, steps))
    decreases |steps|
  {
    if steps != [] {
      var step := steps[0];
      var s' := Apply(sigma, s, step);
      OfferedOnlyGrows(sigma, s, steps);
      StepKeepsInv(sigma, s, step);
      RunRefinesMemory(sigma, s', steps[1..]);
      if Publishes(s, step) {
        RenameIsPut(sigma, s, step);
        PutAllOfStep(sigma, Visible(s), [s.tasks[step.task].request.bytes], Published(sigma, s', steps[1..]));
      } else {
        QuietStep(sigma, s, step);
        PutAllOfStep(sigma, Visible(s), [], Published(sigma, s', steps[1..]));
      }
    }
  }

  /** Over every run, a present blob keeps its bytes for good. */
  lemma {:induction false} PresentBlobsStay(sigma: Hasher, s: State, steps: seq<Step>, h: Hash32)
    requires Inv(sigma, s) && CanRun(sigma, s, steps) && h in Visible(s)
    requires CollisionFree(sigma, Run(sigma, s, steps).offered)
    ensures h in Visible(Run(sigma, s, steps)) && Visible(Run(sigma, s, steps))[h] == Visible(s)[h]
  {
    RunRefinesMemory(sigma, s, steps);
    PutsOnlyGrow(sigma, Visible(s), Published(sigma, s, steps), h);
  }

  // ------------------------------------------------------------------ answers

  /** After any run from the empty store: every final file verifies; a finished get holds nothing or
      the very bytes now visible under its hash; a finished put that was not failed is visible with
      its own bytes; and nothing was ever corrupt. */
  lemma AnswersAreVisible(sigma: Hasher, steps: seq<Step>, s: State, t: nat)
    requires CanRun(sigma, Empty(), steps) && s == Run(sigma, Empty(), steps)
    requires CollisionFree(sigma, s.offered) && t in s.tasks && s.tasks[t].pc.Done?
    ensures var task := s.tasks[t];
            match task.pc.answer
            case Stored(h) =>
              task.request.Put? && MemGet(sigma, Visible(s), sigma(task.request.bytes)) == Ok(Some(task.request.bytes))
            case Found(bytes) => task.request.Get? && MemGet(sigma, Visible(s), task.request.hash) == Ok(Some(bytes))
            case Absent => task.request.Get?
            case Corrupt => false
            case Failed => true
  {
    RunKeepsInv(sigma, Empty(), steps);
    assert TaskOk(sigma, s, t);
    var task := s.tasks[t];
    var h := if task.request.Put? then sigma(task.request.bytes) else task.request.hash;
    VisibleIs(s, h);
    if Final(h) in s.dir {
      assert EntryOk(sigma, s, Final(h));
      VisibleVerifies(sigma, s, h);
    }
  }

  /** A get answers "absent" exactly when it looks at a moment the blob is not visible. */
  lemma AbsentMeansNotVisible(sigma: Hasher, s: State, t: nat, h: Hash32, s': State)
    requires Inv(sigma, s) && CanAdvance(s, t) && s.tasks[t].pc.Opening?
    requires s.tasks[t].request == Get(h) && s' == AdvanceRead(sigma, s, t)
    ensures s'.tasks[t].pc == Done(Absent) <==> h !in Visible(s)
  {
    assert TaskOk(sigma, s, t);
    VisibleIs(s, h);
    if Final(h) in s.dir {
      assert EntryOk(sigma, s, Final(h));
    }
  }

  /** Call `t`, as a get of `h`, has not answered "absent". */
  predicate NotAbsent(s: State, t: nat, h: Hash32) {
    t in s.tasks && s.tasks[t].request == Get(h) ==> s.tasks[t].pc != Done(Absent)
  }

  lemma StepKeepsNotAbsent(sigma: Hasher, s: State, step: Step, t: nat, h: Hash32)
    requires Inv(sigma, s) && Enabled(s, step) && Final(h) in s.dir && NotAbsent(s, t, h)
    ensures Final(h) in Apply(sigma, s, step).dir && NotAbsent(Apply(sigma, s, step), t, h)
  {
    if step.Sweep? {
      SweepMatchesTemps(step.entry);
    } else if step.Advance? {
      AdvanceKeepsNotAbsent(sigma, s, step, t, h, Apply(sigma, s, step));
    }
  }

  lemma AdvanceKeepsNotAbsent(sigma: Hasher, s: State, step: Step, t: nat, h: Hash32, s': State)
    requires Inv(sigma, s) && Enabled(s, step) && step.Advance? && Final(h) in s.dir && NotAbsent(s, t, h)
    requires s' == Apply(sigma, s, step)
    ensures Final(h) in s'.dir && NotAbsent(s', t, h)
  {
    assert TaskOk(sigma, s, step.task) && EntryOk(sigma, s, Final(h));
    if step.task == t && s.tasks[t].pc.Opening? && s.tasks[t].request == Get(h) {
      VisibleIs(s, h);
      AbsentMeansNotVisible(sigma, s, t, h, AdvanceRead(sigma, s, t));
    }
  }

  /** Once a blob is visible, no get of it ever answers "absent" again, in any run. */
  lemma {:induction false} VisibleIsNeverAbsent(sigma: Hasher, s: State, steps: seq<Step>, t: nat, h: Hash32)
    requires Inv(sigma, s) && CanRun(sigma, s, steps) && h in Visible(s) && NotAbsent(s, t, h)
    ensures NotAbsent(Run(sigma, s, steps), t, h) && h in Visible(Run(sigma, s, steps))
    decreases |steps|
  {
    if steps != [] {
      var s' := Apply(sigma, s, steps[0]);
      VisibleIs(s, h);
      StepKeepsNotAbsent(sigma, s, steps[0], t, h);
      StepKeepsInv(sigma, s, steps[0]);
      assert EntryOk(sigma, s', Final(h));
      VisibleIs(s', h);
      VisibleIsNeverAbsent(sigma, s', steps[1..], t, h);
    }
  }
}
