/**
 Any number of writers committing to one store under the lock, interleaved step by step. Reading the store, checking
 the conflict baseline, the fencing check and every single file write are steps of their own; a stalled holder can be
 reclaimed, a process can crash anywhere.
 */
module CommitProtocol {
  import opened Keys
  import opened Store
  import opened LockRecord

  /** What is fixed for a store: how old a heartbeat may be, how contents are sanitised when read, and whether a commit
      is accepted, from the state read, the state it would produce, and its writes. Digests are taken to be injective,
      so a baseline holds the content itself. */
  datatype Config = Config(staleAfter: nat, clean: Content -> Content, valid: (State, State, seq<Write>) -> bool)

  datatype Phase =
    | Staging                                                      // no lock held
    | Checking(checked: set<Key>)                                  // the lock just taken; comparing the baseline
    | Reading(listing: set<Key>, snapshot: State)                  // files listed; reading them one by one
    | Judged(snapshot: State)                                      // accepted by validation
    | Fenced(snapshot: State)                                      // still current when checked
    | Applying(snapshot: State, base: State, prior: map<Key, Option<Content>>, done: nat)
    | Restoring(snapshot: State, base: State, prior: map<Key, Option<Content>>, todo: set<Key>)
    | Finished(committed: bool)                                    // done; the lock not yet released
    | Crashed

  datatype Writer = Writer(pending: seq<Write>, baseline: map<Key, Option<Content>>, generation: nat, phase: Phase)

  /** One change of the store: a commit that landed, or what a crash in mid-application left behind. */
  datatype Entry =
    | Committed(generation: nat, pre: State, post: State, read: State, baseline: map<Key, Option<Content>>,
                writes: seq<Write>)
    | Torn(generation: nat, pre: State, post: State)

  datatype World = World(record: LockState, docs: State, writers: seq<Writer>, log: seq<Entry>)

  datatype Step =
    | Stage(i: nat, write: Write) | Abort(i: nat)
    | Acquire(i: nat, now: u128) | Heartbeat(i: nat, now: u128)
    | CheckKey(i: nat, key: Key) | List(i: nat) | ReadDoc(i: nat, key: Key) | Judge(i: nat)
    | Fence(i: nat) | Capture(i: nat) | ApplyOne(i: nat) | Accept(i: nat) | Reject(i: nat)
    | RestoreOne(i: nat, key: Key) | Restored(i: nat)
    | Refuse(i: nat) | Release(i: nat) | Crash(i: nat)

  predicate Locked(phase: Phase) {
    !phase.Staging? && !phase.Crashed?
  }

  /** Between the fencing check and the end of the application or restoration it covers. */
  predicate InWindow(phase: Phase) {
    phase.Fenced? || phase.Applying? || phase.Restoring?
  }

  predicate WindowOpen(w: World) {
    exists i :: 0 <= i < |w.writers| && InWindow(w.writers[i].phase)
  }

  function SetPhase(w: World, i: nat, phase: Phase): World
    requires i < |w.writers|
  {
    w.(writers := w.writers[i := w.writers[i].(phase := phase)])
  }

  /** When a step can happen. `windowed` is the assumption that no acquire falls inside another writer's window. */
  predicate Enabled(c: Config, w: World, step: Step, windowed: bool) {
    step.i < |w.writers| &&
    var me := w.writers[step.i];
    match step
    case Stage(_, _) => me.phase.Staging?
    case Abort(_) => me.phase.Staging?
    case Acquire(_, now) =>
      && me.phase.Staging? && me.pending != [] && w.record.IsFree(now, c.staleAfter)
      && w.record.generation + 1 < 0x1_0000_0000_0000_0000
      && (windowed ==> !WindowOpen(w))
    case Heartbeat(_, _) => Locked(me.phase) && me.generation < 0x1_0000_0000_0000_0000
    case CheckKey(_, key) => me.phase.Checking? && key in me.baseline && At(w.docs, key) == me.baseline[key]
    case List(_) => me.phase.Checking? && me.phase.checked == me.baseline.Keys
    case ReadDoc(_, key) => me.phase.Reading? && key in me.phase.listing && key !in me.phase.snapshot
    case Judge(_) =>
      && me.phase.Reading? && me.phase.listing == me.phase.snapshot.Keys
      && c.valid(me.phase.snapshot, ApplyAll(me.phase.snapshot, me.pending), me.pending)
    case Fence(_) => me.phase.Judged? && w.record.generation == me.generation
    case Capture(_) => me.phase.Fenced?
    case ApplyOne(_) => me.phase.Applying? && me.phase.done < |me.pending|
    case Accept(_) => me.phase.Applying? && me.phase.done == |me.pending|
    case Reject(_) => me.phase.Applying? && me.phase.done == |me.pending|
    case RestoreOne(_, key) => me.phase.Restoring? && key in me.phase.todo && key in me.phase.prior
    case Restored(_) => me.phase.Restoring? && me.phase.todo == {}
    case Refuse(_) => me.phase.Checking? || me.phase.Reading? || me.phase.Judged?
    case Release(_) => me.phase.Finished? && me.generation < 0x1_0000_0000_0000_0000
    case Crash(_) => !me.phase.Crashed?
  }

  function Do(c: Config, w: World, step: Step, windowed: bool): World
    requires Enabled(c, w, step, windowed)
  {
    var i := step.i;
    var me := w.writers[i];
    match step
    case Stage(_, write) =>
      var baseline := if write.key in me.baseline then me.baseline else me.baseline[write.key := At(w.docs, write.key)];
      w.(writers := w.writers[i := me.(pending := me.pending + [write], baseline := baseline)])
    case Abort(_) => w.(writers := w.writers[i := me.(pending := [], baseline := map[])])
    case Acquire(_, now) =>
      var record := Acquired(w.record, now);
      w.(record := record, writers := w.writers[i := me.(generation := record.generation, phase := Checking({}))])
    case Heartbeat(_, now) => w.(record := Refreshed(w.record, me.generation, now))
    case CheckKey(_, key) => SetPhase(w, i, Checking(me.phase.checked + {key}))
    case List(_) => SetPhase(w, i, Reading(w.docs.Keys, map[]))
    case ReadDoc(_, key) =>
      if key in w.docs then SetPhase(w, i, Reading(me.phase.listing, me.phase.snapshot[key := c.clean(w.docs[key])]))
      else SetPhase(w, i, Reading(me.phase.listing - {key}, me.phase.snapshot))
    case Judge(_) => SetPhase(w, i, Judged(me.phase.snapshot))
    case Fence(_) => SetPhase(w, i, Fenced(me.phase.snapshot))
    case Capture(_) => SetPhase(w, i, Applying(me.phase.snapshot, w.docs, Prior(w.docs, me.pending), 0))
    case ApplyOne(_) =>
      SetPhase(w, i, Applying(me.phase.snapshot, me.phase.base, me.phase.prior, me.phase.done + 1))
        .(docs := ApplyWrite(w.docs, me.pending[me.phase.done]))
    case Accept(_) =>
      var entry := Committed(me.generation, me.phase.base, w.docs, me.phase.snapshot, me.baseline, me.pending);
      SetPhase(w, i, Finished(true)).(log := w.log + [entry])
    case Reject(_) =>
      SetPhase(w, i, Restoring(me.phase.snapshot, me.phase.base, me.phase.prior, me.phase.prior.Keys))
    case RestoreOne(_, key) =>
      SetPhase(w, i, Restoring(me.phase.snapshot, me.phase.base, me.phase.prior, me.phase.todo - {key}))
        .(docs := SetAt(w.docs, key, me.phase.prior[key]))
    case Restored(_) => SetPhase(w, i, Finished(false))
    case Refuse(_) => SetPhase(w, i, Finished(false))
    case Release(_) =>
      var rest := if me.phase.committed then me.(pending := [], baseline := map[]) else me;
      w.(record := MarkedFree(w.record, me.generation), writers := w.writers[i := rest.(phase := Staging)])
    case Crash(_) =>
      var midway := me.phase.Applying? || me.phase.Restoring?;
      var log := if midway then w.log + [Torn(me.generation, me.phase.base, w.docs)] else w.log;
      SetPhase(w, i, Crashed).(log := log)
  }

  /** The state after a run; a step that cannot happen is passed over. */
  function After(c: Config, start: World, steps: seq<Step>, windowed: bool): World {
    if steps == [] then start
    else Taken(c, After(c, start, steps[..|steps| - 1], windowed), steps[|steps| - 1], windowed)
  }

  function Taken(c: Config, w: World, step: Step, windowed: bool): World {
    if Enabled(c, w, step, windowed) then Do(c, w, step, windowed) else w
  }

  /** Writers that have staged nothing yet, over any store and any record. */
  ghost predicate Initial(w: World) {
    && w.log == []
    && forall i :: 0 <= i < |w.writers| ==> w.writers[i] == Writer([], map[], 0, Staging)
  }

  // ----- The invariant -----

  /** The store as the log says it is. */
  function Latest(start: State, log: seq<Entry>): State {
    if log == [] then start else log[|log| - 1].post
  }

  function LastGeneration(log: seq<Entry>): int {
    if log == [] then -1 else log[|log| - 1].generation
  }

  /** Every staged key has a baseline. */
  ghost predicate Staged(me: Writer) {
    forall k :: k in Touched(me.pending) ==> k in me.baseline
  }

  /** The store holds at every staged key what the transaction saw when it first wrote it. */
  ghost predicate Unchanged(baseline: map<Key, Option<Content>>, docs: State) {
    forall k :: k in baseline ==> At(docs, k) == baseline[k]
  }

  /** What a writer that still is current knows about the store, phase by phase; `latest` is the store outside any
      window. */
  ghost predicate Knows(c: Config, me: Writer, docs: State, latest: State) {
    match me.phase
    case Checking(checked) => docs == latest && forall k :: k in checked ==>
        k in me.baseline && At(docs, k) == me.baseline[k]
    case Reading(listing, snapshot) =>
      && docs == latest && Unchanged(me.baseline, docs) && listing == docs.Keys
      && forall k :: k in snapshot ==> k in docs && snapshot[k] == c.clean(docs[k])
    case Judged(snapshot) => docs == latest && Validated(c, me, snapshot, docs)
    case Fenced(snapshot) => docs == latest && Validated(c, me, snapshot, docs)
    case Applying(snapshot, base, prior, done) =>
      && base == latest && Validated(c, me, snapshot, base) && prior == Prior(base, me.pending)
      && done <= |me.pending| && docs == ApplyAll(base, me.pending[..done])
    case Restoring(snapshot, base, prior, todo) =>
      && base == latest && Validated(c, me, snapshot, base) && prior == Prior(base, me.pending)
      && todo <= prior.Keys
      && forall k :: k !in todo ==> At(docs, k) == At(base, k)
    case Finished(_) => docs == latest
    case _ => true
  }

  /** What was read and accepted is exactly the store, and the store is what the transaction staged against. */
  ghost predicate Validated(c: Config, me: Writer, snapshot: State, docs: State) {
    && snapshot == Sanitized(docs, c.clean)
    && c.valid(snapshot, ApplyAll(snapshot, me.pending), me.pending)
    && Unchanged(me.baseline, docs)
  }

  ghost predicate WriterOk(c: Config, w: World, start: State, i: nat)
    requires i < |w.writers|
  {
    var me := w.writers[i];
    && Staged(me)
    && (Locked(me.phase) ==> me.generation <= w.record.generation)
    && (InWindow(me.phase) ==> me.generation == w.record.generation)
    && (Locked(me.phase) && me.generation == w.record.generation ==>
          && Knows(c, me, w.docs, Latest(start, w.log))
          && (!me.phase.Finished? ==> LastGeneration(w.log) < me.generation))
  }

  ghost predicate EntryOk(c: Config, e: Entry) {
    e.Committed? ==>
      && e.read == Sanitized(e.pre, c.clean)
      && c.valid(e.read, ApplyAll(e.read, e.writes), e.writes)
      && Unchanged(e.baseline, e.pre)
      && Touched(e.writes) <= e.baseline.Keys
      && e.post == ApplyAll(e.pre, e.writes)
  }

  /** The log is one serial history: each entry starts from where the one before ended, in rising generations. */
  ghost predicate LogOk(c: Config, start: State, log: seq<Entry>) {
    && (forall n :: 0 <= n < |log| ==> EntryOk(c, log[n]))
    && (forall n :: 0 <= n < |log| ==> log[n].pre == Latest(start, log[..n]))
    && (forall m, n :: 0 <= m < n < |log| ==> log[m].generation < log[n].generation)
  }

  /** Two writers never hold the lock under one generation. */
  ghost predicate DistinctHolders(w: World) {
    forall i, j :: 0 <= i < j < |w.writers| && Locked(w.writers[i].phase) && Locked(w.writers[j].phase) ==>
      w.writers[i].generation != w.writers[j].generation
  }

  ghost predicate Inv(c: Config, w: World, start: State) {
    && (forall i :: 0 <= i < |w.writers| ==> WriterOk(c, w, start, i))
    && DistinctHolders(w)
    && (!WindowOpen(w) ==> w.docs == Latest(start, w.log))
    && LogOk(c, start, w.log)
    && LastGeneration(w.log) <= w.record.generation
  }

  // ----- Every step keeps it -----

  /** A window belongs to the one writer that still is current. */
  lemma {:induction false} OneWindow(c: Config, w: World, start: State, i: nat, j: nat)
    requires Inv(c, w, start) && i < |w.writers| && j < |w.writers|
    requires InWindow(w.writers[i].phase)
    requires Locked(w.writers[j].phase) && w.writers[j].generation == w.record.generation
    ensures i == j
  {
    assert WriterOk(c, w, start, i);
  }

  /** A step that leaves the store, the log and the recorded generation alone. */
  lemma {:induction false} LocalStep(c: Config, w: World, v: World, start: State, i: nat, me: Writer)
    requires Inv(c, w, start) && i < |w.writers|
    requires v.docs == w.docs && v.log == w.log && v.record.generation == w.record.generation
    requires v.writers == w.writers[i := me] && WriterOk(c, v, start, i)
    requires Locked(me.phase) ==> Locked(w.writers[i].phase) && me.generation == w.writers[i].generation
    requires InWindow(w.writers[i].phase) && !InWindow(me.phase) ==> w.docs == Latest(start, w.log)
    ensures Inv(c, v, start)
  {
    forall j | 0 <= j < |v.writers| ensures WriterOk(c, v, start, j) {
      if j != i {
        assert WriterOk(c, w, start, j);
      }
    }
    if !WindowOpen(v) && WindowOpen(w) {
      var j :| 0 <= j < |w.writers| && InWindow(w.writers[j].phase);
      assert v.writers[j].phase == w.writers[j].phase || j == i;
    }
  }

  /** Whoever is not in the window knows nothing that a step inside it could make wrong. */
  lemma {:induction false} Outside(c: Config, w: World, v: World, start: State, i: nat, j: nat)
    requires Inv(c, w, start) && i < |w.writers| && InWindow(w.writers[i].phase)
    requires j < |w.writers| && j != i && j < |v.writers| && v.writers[j] == w.writers[j] && v.record == w.record
    ensures WriterOk(c, v, start, j)
  {
    assert WriterOk(c, w, start, j);
    if Locked(w.writers[j].phase) && w.writers[j].generation == w.record.generation {
      OneWindow(c, w, start, i, j);
    }
  }

  /** A step inside the window of writer `i`, which may change the store and extend the log. */
  lemma {:induction false} WindowStep(c: Config, w: World, v: World, start: State, i: nat, me: Writer)
    requires Inv(c, w, start) && i < |w.writers| && InWindow(w.writers[i].phase)
    requires v.record == w.record && v.writers == w.writers[i := me] && WriterOk(c, v, start, i)
    requires me.generation == w.writers[i].generation && LogOk(c, start, v.log)
    requires LastGeneration(v.log) <= v.record.generation
    requires !InWindow(me.phase) ==> v.docs == Latest(start, v.log)
    ensures Inv(c, v, start)
  {
    forall j | 0 <= j < |v.writers| ensures WriterOk(c, v, start, j) {
      if j != i {
        Outside(c, w, v, start, i, j);
      }
    }
    assert InWindow(me.phase) ==> InWindow(v.writers[i].phase);
  }

  /** Appending an entry that starts where the log ends. */
  lemma {:induction false} LogAppend(c: Config, start: State, log: seq<Entry>, e: Entry)
    requires LogOk(c, start, log) && EntryOk(c, e)
    requires e.pre == Latest(start, log) && LastGeneration(log) < e.generation
    ensures LogOk(c, start, log + [e])
  {
    var more := log + [e];
    forall n | 0 <= n < |more| ensures more[n].pre == Latest(start, more[..n]) {
      assert n < |log| ==> more[..n] == log[..n];
      assert more[..|log|] == log;
    }
    forall m | 0 <= m < |log| ensures log[m].generation <= LastGeneration(log) {
      assert m < |log| - 1 ==> log[m].generation < log[|log| - 1].generation;
    }
  }

  lemma {:induction false} AcquireLeaves(c: Config, w: World, i: nat, now: u128, start: State, j: nat)
    requires Inv(c, w, start) && Enabled(c, w, Acquire(i, now), true) && j < |w.writers|
    ensures WriterOk(c, Do(c, w, Acquire(i, now), true), start, j)
  {
    assert WriterOk(c, w, start, j) && !InWindow(w.writers[j].phase);
  }

  lemma {:induction false} AcquireKeeps(c: Config, w: World, i: nat, now: u128, start: State)
    requires Inv(c, w, start) && Enabled(c, w, Acquire(i, now), true)
    ensures Inv(c, Do(c, w, Acquire(i, now), true), start)
  {
    var v := Do(c, w, Acquire(i, now), true);
    forall j | 0 <= j < |v.writers| ensures WriterOk(c, v, start, j) {
      AcquireLeaves(c, w, i, now, start, j);
    }
    forall a, b | 0 <= a < b < |v.writers| && Locked(v.writers[a].phase) && Locked(v.writers[b].phase)
      ensures v.writers[a].generation != v.writers[b].generation {
      assert WriterOk(c, w, start, a) && WriterOk(c, w, start, b);
    }
    if !WindowOpen(v) {
      forall j | 0 <= j < |w.writers| ensures !InWindow(w.writers[j].phase) {
        assert !InWindow(v.writers[j].phase);
      }
    }
  }

  lemma {:induction false} StagingKeeps(c: Config, w: World, step: Step, start: State)
    requires Inv(c, w, start) && Enabled(c, w, step, true)
    requires step.Stage? || step.Abort? || step.Heartbeat? || step.Release?
    ensures Inv(c, Do(c, w, step, true), start)
  {
    var v, i := Do(c, w, step, true), step.i;
    assert WriterOk(c, w, start, i);
    if step.Stage? {
      var before, after := w.writers[i].pending, v.writers[i].pending;
      forall k | k in Store.Touched(after) ensures k in Store.Touched(before) || k == step.write.key {
        var n :| 0 <= n < |after| && after[n].key == k;
        assert n < |before| ==> before[n] == after[n];
      }
    }
    LocalStep(c, w, v, start, i, v.writers[i]);
  }

  lemma {:induction false} CheckingKeeps(c: Config, w: World, step: Step, start: State)
    requires Inv(c, w, start) && Enabled(c, w, step, true)
    requires step.CheckKey? || step.List?
    ensures Inv(c, Do(c, w, step, true), start)
  {
    var v, i := Do(c, w, step, true), step.i;
    assert WriterOk(c, w, start, i);
    LocalStep(c, w, v, start, i, v.writers[i]);
  }

  lemma {:induction false} ReadingKeeps(c: Config, w: World, step: Step, start: State)
    requires Inv(c, w, start) && Enabled(c, w, step, true)
    requires step.ReadDoc? || step.Refuse?
    ensures Inv(c, Do(c, w, step, true), start)
  {
    var v, i := Do(c, w, step, true), step.i;
    assert WriterOk(c, w, start, i);
    LocalStep(c, w, v, start, i, v.writers[i]);
  }

  /** A complete reading of an unchanged store is that store. */
  lemma {:induction false} JudgeKeeps(c: Config, w: World, i: nat, start: State)
    requires Inv(c, w, start) && Enabled(c, w, Judge(i), true)
    ensures Inv(c, Do(c, w, Judge(i), true), start)
  {
    var v, me := Do(c, w, Judge(i), true), w.writers[i];
    assert WriterOk(c, w, start, i);
    if me.generation == w.record.generation {
      assert me.phase.snapshot == Sanitized(w.docs, c.clean);
    }
    LocalStep(c, w, v, start, i, v.writers[i]);
  }

  lemma {:induction false} FenceKeeps(c: Config, w: World, i: nat, start: State)
    requires Inv(c, w, start) && Enabled(c, w, Fence(i), true)
    ensures Inv(c, Do(c, w, Fence(i), true), start)
  {
    var v := Do(c, w, Fence(i), true);
    assert WriterOk(c, w, start, i);
    LocalStep(c, w, v, start, i, v.writers[i]);
  }

  lemma {:induction false} CaptureKeeps(c: Config, w: World, i: nat, start: State)
    requires Inv(c, w, start) && Enabled(c, w, Capture(i), true)
    ensures Inv(c, Do(c, w, Capture(i), true), start)
  {
    var v := Do(c, w, Capture(i), true);
    assert WriterOk(c, w, start, i);
    WindowStep(c, w, v, start, i, v.writers[i]);
  }

  lemma {:induction false} ApplyOneKeeps(c: Config, w: World, i: nat, start: State)
    requires Inv(c, w, start) && Enabled(c, w, ApplyOne(i), true)
    ensures Inv(c, Do(c, w, ApplyOne(i), true), start)
  {
    var v, me := Do(c, w, ApplyOne(i), true), w.writers[i];
    assert WriterOk(c, w, start, i);
    ApplyStep(me.phase.base, me.pending, me.phase.done);
    WindowStep(c, w, v, start, i, v.writers[i]);
  }

  /** What an applied commit puts into the log. */
  lemma {:induction false} LandedEntry(c: Config, me: Writer, docs: State, latest: State)
    requires Staged(me) && me.phase.Applying? && me.phase.done == |me.pending| && Knows(c, me, docs, latest)
    ensures var e := Committed(me.generation, me.phase.base, docs, me.phase.snapshot, me.baseline, me.pending);
            EntryOk(c, e) && e.pre == latest
  {
    assert me.pending[..me.phase.done] == me.pending;
  }

  /** A writer that is done knows only that the store is as logged. */
  lemma {:induction false} FinishedOk(c: Config, w: World, start: State, i: nat)
    requires i < |w.writers| && (w.writers[i].phase.Finished? || w.writers[i].phase.Crashed?)
    requires Staged(w.writers[i]) && w.writers[i].generation <= w.record.generation && w.docs == Latest(start, w.log)
    ensures WriterOk(c, w, start, i)
  {
  }

  lemma {:induction false} AcceptKeeps(c: Config, w: World, i: nat, start: State)
    requires Inv(c, w, start) && Enabled(c, w, Accept(i), true)
    ensures Inv(c, Do(c, w, Accept(i), true), start)
  {
    var v, me := Do(c, w, Accept(i), true), w.writers[i];
    assert WriterOk(c, w, start, i);
    LandedEntry(c, me, w.docs, Latest(start, w.log));
    var e := Committed(me.generation, me.phase.base, w.docs, me.phase.snapshot, me.baseline, me.pending);
    Ends(c, w, v, start, i, e);
  }

  /** A window that ends with an entry in the log. */
  lemma {:induction false} Ends(c: Config, w: World, v: World, start: State, i: nat, e: Entry)
    requires Inv(c, w, start) && i < |w.writers| && InWindow(w.writers[i].phase) && LastGeneration(w.log) < e.generation
    requires v.record == w.record && v.docs == w.docs && v.log == w.log + [e] && |v.writers| == |w.writers|
    requires EntryOk(c, e) && e.pre == Latest(start, w.log) && e.post == w.docs
        && e.generation == w.writers[i].generation
    requires v.writers == w.writers[i := v.writers[i]] && (v.writers[i].phase.Finished? || v.writers[i].phase.Crashed?)
    requires Staged(v.writers[i]) && v.writers[i].generation == w.writers[i].generation
    ensures Inv(c, v, start)
  {
    assert WriterOk(c, w, start, i);
    LogAppend(c, start, w.log, e);
    FinishedOk(c, v, start, i);
    WindowStep(c, w, v, start, i, v.writers[i]);
  }

  lemma {:induction false} RejectKeeps(c: Config, w: World, i: nat, start: State)
    requires Inv(c, w, start) && Enabled(c, w, Reject(i), true)
    ensures Inv(c, Do(c, w, Reject(i), true), start)
  {
    var v, me := Do(c, w, Reject(i), true), w.writers[i];
    assert WriterOk(c, w, start, i);
    assert me.pending[..me.phase.done] == me.pending;
    forall k | k !in me.phase.prior ensures At(w.docs, k) == At(me.phase.base, k) {
      Untouched(me.phase.base, me.pending, k);
    }
    WindowStep(c, w, v, start, i, v.writers[i]);
  }

  /** Putting one key back leaves one key less to put back. */
  lemma {:induction false} OnePutBack(c: Config, me: Writer, next: Writer, docs: State, latest: State, key: Key)
    requires me.phase.Restoring? && key in me.phase.todo && key in me.phase.prior && Knows(c, me, docs, latest)
    requires next == me.(phase := Restoring(me.phase.snapshot, me.phase.base, me.phase.prior, me.phase.todo - {key}))
    ensures Knows(c, next, SetAt(docs, key, me.phase.prior[key]), latest)
  {
  }

  lemma {:induction false} RestoreOneKeeps(c: Config, w: World, i: nat, key: Key, start: State)
    requires Inv(c, w, start) && Enabled(c, w, RestoreOne(i, key), true)
    ensures Inv(c, Do(c, w, RestoreOne(i, key), true), start)
  {
    var v := Do(c, w, RestoreOne(i, key), true);
    assert WriterOk(c, w, start, i);
    OnePutBack(c, w.writers[i], v.writers[i], w.docs, Latest(start, w.log), key);
    WindowStep(c, w, v, start, i, v.writers[i]);
  }

  lemma {:induction false} RestoredKeeps(c: Config, w: World, i: nat, start: State)
    requires Inv(c, w, start) && Enabled(c, w, Restored(i), true)
    ensures Inv(c, Do(c, w, Restored(i), true), start)
  {
    var v, me := Do(c, w, Restored(i), true), w.writers[i];
    assert WriterOk(c, w, start, i);
    SameEverywhere(w.docs, me.phase.base);
    WindowStep(c, w, v, start, i, v.writers[i]);
  }

  /** A crash while files are being written leaves the store as it is at that point, and the log says so. */
  lemma {:induction false} CrashMidway(c: Config, w: World, i: nat, start: State)
    requires Inv(c, w, start) && Enabled(c, w, Crash(i), true)
    requires w.writers[i].phase.Applying? || w.writers[i].phase.Restoring?
    ensures Inv(c, Do(c, w, Crash(i), true), start)
  {
    var v, me := Do(c, w, Crash(i), true), w.writers[i];
    assert WriterOk(c, w, start, i);
    Ends(c, w, v, start, i, Torn(me.generation, me.phase.base, w.docs));
  }

  lemma {:induction false} CrashElsewhere(c: Config, w: World, i: nat, start: State)
    requires Inv(c, w, start) && Enabled(c, w, Crash(i), true)
    requires !w.writers[i].phase.Applying? && !w.writers[i].phase.Restoring?
    ensures Inv(c, Do(c, w, Crash(i), true), start)
  {
    var v := Do(c, w, Crash(i), true);
    assert WriterOk(c, w, start, i);
    assert v.log == w.log;
    LocalStep(c, w, v, start, i, v.writers[i]);
  }

  lemma {:induction false} StepKeeps(c: Config, w: World, step: Step, start: State)
    requires Inv(c, w, start) && Enabled(c, w, step, true)
    ensures Inv(c, Do(c, w, step, true), start)
  {
    match step
    case Acquire(i, now) => AcquireKeeps(c, w, i, now, start);
    case Judge(i) => JudgeKeeps(c, w, i, start);
    case Fence(i) => FenceKeeps(c, w, i, start);
    case Capture(i) => CaptureKeeps(c, w, i, start);
    case ApplyOne(i) => ApplyOneKeeps(c, w, i, start);
    case Accept(i) => AcceptKeeps(c, w, i, start);
    case Reject(i) => RejectKeeps(c, w, i, start);
    case RestoreOne(i, key) => RestoreOneKeeps(c, w, i, key, start);
    case Restored(i) => RestoredKeeps(c, w, i, start);
    case Crash(i) =>
      if w.writers[i].phase.Applying? || w.writers[i].phase.Restoring? {
        CrashMidway(c, w, i, start);
      } else {
        CrashElsewhere(c, w, i, start);
      }
    case Stage(_, _) => StagingKeeps(c, w, step, start);
    case Abort(_) => StagingKeeps(c, w, step, start);
    case Heartbeat(_, _) => StagingKeeps(c, w, step, start);
    case Release(_) => StagingKeeps(c, w, step, start);
    case CheckKey(_, _) => CheckingKeeps(c, w, step, start);
    case List(_) => CheckingKeeps(c, w, step, start);
    case _ => ReadingKeeps(c, w, step, start);
  }

  lemma {:induction false} RunKeeps(c: Config, start: World, steps: seq<Step>)
    requires Initial(start)
    ensures Inv(c, After(c, start, steps, true), start.docs)
  {
    if steps != [] {
      var front, last := steps[..|steps| - 1], steps[|steps| - 1];
      RunKeeps(c, start, front);
      var w := After(c, start, front, true);
      if Enabled(c, w, last, true) {
        StepKeeps(c, w, last, start.docs);
      }
    }
  }

  // ----- What every run guarantees -----

  lemma {:induction false} LogChain(c: Config, start: State, log: seq<Entry>, m: nat, n: nat)
    requires LogOk(c, start, log) && m < n < |log|
    ensures log[m].generation < log[n].generation && log[n].pre == log[n - 1].post && log[0].pre == start
  {
    assert log[..n][n - 1] == log[n - 1];
    assert log[n].pre == Latest(start, log[..n]);
    assert log[0].pre == Latest(start, log[..0]);
  }

  /** Commits are serial: in every run in which no acquire falls between another writer's fencing check and the end of
      its application or restoration, the store's history is one chain of commits in strictly rising generations. */
  lemma {:induction false} CommitsAreSerial(c: Config, start: World, steps: seq<Step>, m: nat, n: nat)
    requires Initial(start)
    requires m < n < |After(c, start, steps, true).log|
    ensures var log := After(c, start, steps, true).log;
            && log[m].generation < log[n].generation
            && log[n].pre == log[n - 1].post && log[0].pre == start.docs
  {
    RunKeeps(c, start, steps);
    LogChain(c, start.docs, After(c, start, steps, true).log, m, n);
  }

  /** Each commit that lands replaces exactly the store it read, validated, and staged its writes against, by that
      store with its writes applied: no update of a staged key is lost. */
  lemma {:induction false} CommitIsAtomic(c: Config, start: World, steps: seq<Step>, n: nat)
    requires Initial(start)
    requires n < |After(c, start, steps, true).log| && After(c, start, steps, true).log[n].Committed?
    ensures var e := After(c, start, steps, true).log[n];
            && e.read == Sanitized(e.pre, c.clean) && c.valid(e.read, ApplyAll(e.read, e.writes), e.writes)
            && (forall k :: k in Store.Touched(e.writes) ==> k in e.baseline && At(e.pre, k) == e.baseline[k])
            && e.post == ApplyAll(e.pre, e.writes)
  {
    RunKeeps(c, start, steps);
    assert EntryOk(c, After(c, start, steps, true).log[n]);
  }

  lemma {:induction false} SettledStore(c: Config, w: World, start: State)
    requires Inv(c, w, start) && !WindowOpen(w)
    ensures w.docs == Latest(start, w.log)
  {
  }

  /** Whenever no writer is in its window, the store is what the last entry left: refused, rejected and abandoned
      commits leave nothing behind. */
  lemma {:induction false} OnlyLoggedChanges(c: Config, start: World, steps: seq<Step>)
    requires Initial(start) && !WindowOpen(After(c, start, steps, true))
    ensures After(c, start, steps, true).docs == Latest(start.docs, After(c, start, steps, true).log)
  {
    RunKeeps(c, start, steps);
    SettledStore(c, After(c, start, steps, true), start.docs);
  }

  /** Once the current holder has released, any other writer with staged writes can take the lock, at any time. */
  lemma {:induction false} ReleaseLetsIn(c: Config, w: World, i: nat, j: nat, now: u128)
    requires Enabled(c, w, Release(i), true) && w.writers[i].generation == w.record.generation
    requires j < |w.writers| && j != i && w.writers[j].phase == Staging && w.writers[j].pending != []
    requires w.record.generation + 1 < 0x1_0000_0000_0000_0000 && !WindowOpen(w)
    ensures Enabled(c, Do(c, w, Release(i), true), Acquire(j, now), true)
  {
    var v := Do(c, w, Release(i), true);
    assert v.record.heartbeat == FREE_HEARTBEAT && v.writers[j] == w.writers[j];
    forall k | 0 <= k < |v.writers| ensures !InWindow(v.writers[k].phase) {
      assert k != i ==> v.writers[k] == w.writers[k];
    }
  }

  /** And until then a heartbeat keeps the others out, for as long as it is fresh. */
  lemma {:induction false} HeartbeatKeepsOut(c: Config, w: World, i: nat, j: nat, beat: u128, now: u128,
      windowed: bool)
    requires Enabled(c, w, Heartbeat(i, beat), windowed) && w.writers[i].generation == w.record.generation
    requires beat > 0 && now <= beat + c.staleAfter
    ensures !Enabled(c, Do(c, w, Heartbeat(i, beat), windowed), Acquire(j, now), windowed)
  {
  }

  // ----- Why the window assumption is needed -----

  /** Taking one step after another, for any way of taking one. */
  function Run<W, S>(take: (W, S) -> W, start: W, steps: seq<S>): W {
    if steps == [] then start else take(Run(take, start, steps[..|steps| - 1]), steps[|steps| - 1])
  }

  lemma {:induction false} RunConcat<W, S>(take: (W, S) -> W, start: W, a: seq<S>, b: seq<S>)
    ensures Run(take, start, a + b) == Run(take, Run(take, start, a), b)
  {
    if b == [] {
      assert a + b == a;
    } else {
      RunConcat(take, start, a, b[..|b| - 1]);
      assert (a + b)[..|a + b| - 1] == a + b[..|b| - 1];
    }
  }

  function Taking(c: Config, windowed: bool): (World, Step) -> World {
    (w, step) => Taken(c, w, step, windowed)
  }

  lemma {:induction false} AfterIsRun(c: Config, start: World, steps: seq<Step>, windowed: bool)
    ensures After(c, start, steps, windowed) == Run(Taking(c, windowed), start, steps)
  {
    if steps != [] {
      AfterIsRun(c, start, steps[..|steps| - 1], windowed);
    }
  }

  lemma {:induction false} AfterConcat(c: Config, start: World, a: seq<Step>, b: seq<Step>, windowed: bool)
    ensures After(c, start, a + b, windowed) == After(c, After(c, start, a, windowed), b, windowed)
  {
    AfterIsRun(c, start, a + b, windowed);
    AfterIsRun(c, start, a, windowed);
    AfterIsRun(c, After(c, start, a, windowed), b, windowed);
    RunConcat(Taking(c, windowed), start, a, b);
  }

  /** A writer's way from its first write to having passed the fencing check, over a store of one document. */
  function ToFence(i: nat, write: Write, now: u128): seq<Step> {
    [Stage(i, write), Acquire(i, now)] + [CheckKey(i, write.key), List(i), ReadDoc(i, write.key)] + [Judge(i), Fence(i)]
  }

  function ToLanding(i: nat): seq<Step> {
    [Capture(i), ApplyOne(i), Accept(i)]
  }

  /** A configuration that accepts everything. */
  ghost predicate Lenient(c: Config) {
    && (forall content :: c.clean(content) == content)
    && (forall before, after, writes :: c.valid(before, after, writes))
  }

  function FencedWriter(write: Write, seen: Content, generation: nat): Writer {
    Writer([write], map[write.key := Some(seen)], generation, Fenced(map[write.key := seen]))
  }

  /** Staging one write and taking the lock. */
  lemma {:induction false} ReachesLock(c: Config, w: World, i: nat, write: Write, seen: Content, now: u128)
    requires i < |w.writers| && w.writers[i] == Writer([], map[], 0, Staging) && write.Put?
    requires w.docs == map[write.key := seen] && w.record.IsFree(now, c.staleAfter)
    requires w.record.generation + 1 < 0x1_0000_0000_0000_0000
    ensures var me := Writer([write], map[write.key := Some(seen)], w.record.generation + 1, Checking({}));
            After(c, w, [Stage(i, write), Acquire(i, now)], false) ==
            w.(record := Acquired(w.record, now), writers := w.writers[i := me])
  {
    var steps := [Stage(i, write), Acquire(i, now)];
    var staged := Writer([write], map[write.key := Some(seen)], 0, Staging);
    assert w.writers[i].pending + [write] == [write];
    assert w.writers[i].baseline[write.key := Some(seen)] == map[write.key := Some(seen)];
    var next := w.(writers := w.writers[i := staged]);
    FirstStep(c, w, steps, next);
    var me := Writer([write], map[write.key := Some(seen)], w.record.generation + 1, Checking({}));
    assert next.writers[i := me] == w.writers[i := me];
    FirstStep(c, next, steps[1..], w.(record := Acquired(w.record, now), writers := w.writers[i := me]));
  }

  /** Listing and reading the one document. */
  lemma {:induction false} ReadsOne(c: Config, w: World, i: nat, me: Writer, key: Key, seen: Content)
    requires i < |w.writers| && w.writers[i] == me && me.phase == Checking({key}) && me.baseline.Keys == {key}
    requires w.docs == map[key := seen] && c.clean(seen) == seen
    ensures After(c, w, [List(i), ReadDoc(i, key)], false) == SetPhase(w, i, Reading({key}, map[key := seen]))
  {
    var steps := [List(i), ReadDoc(i, key)];
    assert w.docs.Keys == {key};
    var next := SetPhase(w, i, Reading({key}, map[]));
    FirstStep(c, w, steps, next);
    var read: State := map[];
    assert read[key := seen] == map[key := seen];
    assert SetPhase(next, i, Reading({key}, map[key := seen])) == SetPhase(w, i, Reading({key}, map[key := seen]));
    FirstStep(c, next, steps[1..], SetPhase(w, i, Reading({key}, map[key := seen])));
  }

  /** Comparing the one baseline, and reading the one document. */
  lemma {:induction false} ReadsAll(c: Config, w: World, i: nat, me: Writer, key: Key, seen: Content)
    requires i < |w.writers| && w.writers[i] == me && me.phase == Checking({}) && me.baseline == map[key := Some(seen)]
    requires w.docs == map[key := seen] && c.clean(seen) == seen
    ensures After(c, w, [CheckKey(i, key), List(i), ReadDoc(i, key)], false) ==
            w.(writers := w.writers[i := me.(phase := Reading({key}, map[key := seen]))])
  {
    var steps := [CheckKey(i, key), List(i), ReadDoc(i, key)];
    assert {} + {key} == {key};
    var next := SetPhase(w, i, Checking({key}));
    FirstStep(c, w, steps, next);
    assert steps[1..] == [List(i), ReadDoc(i, key)];
    ReadsOne(c, next, i, next.writers[i], key, seen);
    assert SetPhase(next, i, Reading({key}, map[key := seen])) == SetPhase(w, i, Reading({key}, map[key := seen]));
  }

  /** Validating, and passing the fencing check. */
  lemma {:induction false} PassesFence(c: Config, w: World, i: nat, me: Writer, read: State)
    requires Lenient(c) && i < |w.writers| && w.writers[i] == me && me.phase == Reading(read.Keys, read)
    requires w.record.generation == me.generation
    ensures After(c, w, [Judge(i), Fence(i)], false) == SetPhase(w, i, Fenced(read))
  {
    var steps := [Judge(i), Fence(i)];
    var w1 := SetPhase(w, i, Judged(read));
    FirstStep(c, w, steps, w1);
    assert SetPhase(w1, i, Fenced(read)) == SetPhase(w, i, Fenced(read));
    FirstStep(c, w1, steps[1..], SetPhase(w, i, Fenced(read)));
  }

  lemma {:induction false} ReachesFence(c: Config, w: World, i: nat, write: Write, seen: Content, now: u128)
    requires Lenient(c) && i < |w.writers| && w.writers[i] == Writer([], map[], 0, Staging) && write.Put?
    requires w.docs == map[write.key := seen] && w.record.IsFree(now, c.staleAfter)
    requires w.record.generation + 1 < 0x1_0000_0000_0000_0000
    ensures After(c, w, ToFence(i, write, now), false) ==
            w.(record := Acquired(w.record, now),
               writers := w.writers[i := FencedWriter(write, seen, w.record.generation + 1)])
  {
    var key := write.key;
    var locking, reading := [Stage(i, write), Acquire(i, now)], [CheckKey(i, key), List(i), ReadDoc(i, key)];
    ReachesLock(c, w, i, write, seen, now);
    var w1 := After(c, w, locking, false);
    ReadsAll(c, w1, i, w1.writers[i], key, seen);
    var w2 := After(c, w1, reading, false);
    var read: State := map[key := seen];
    assert read.Keys == {key};
    PassesFence(c, w2, i, w2.writers[i], read);
    AfterConcat(c, w, locking, reading, false);
    AfterConcat(c, w, locking + reading, [Judge(i), Fence(i)], false);
  }

  /** Running from the state after the first step. */
  lemma {:induction false} FirstStep(c: Config, w: World, steps: seq<Step>, next: World)
    requires steps != [] && Enabled(c, w, steps[0], false) && Do(c, w, steps[0], false) == next
    ensures After(c, w, steps, false) == After(c, next, steps[1..], false)
  {
    assert steps == [steps[0]] + steps[1..];
    AfterConcat(c, w, [steps[0]], steps[1..], false);
    assert [steps[0]][..0] == [];
  }

  lemma {:induction false} ReachesLanding(c: Config, w: World, i: nat, write: Write, seen: Content, generation: nat)
    requires i < |w.writers| && w.writers[i] == FencedWriter(write, seen, generation) && write.Put?
    ensures var post := w.docs[write.key := write.content];
            var entry :=
              Committed(generation, w.docs, post, map[write.key := seen], map[write.key := Some(seen)], [write]);
            After(c, w, ToLanding(i), false) ==
            w.(docs := post, writers := w.writers[i := w.writers[i].(phase := Finished(true))], log := w.log + [entry])
  {
    var me, steps := w.writers[i], ToLanding(i);
    var post := w.docs[write.key := write.content];
    var prior := Prior(w.docs, [write]);
    var w1 := w.(writers := w.writers[i := me.(phase := Applying(me.phase.snapshot, w.docs, prior, 0))]);
    FirstStep(c, w, steps, w1);
    var w2 := w.(docs := post, writers := w.writers[i := me.(phase := Applying(me.phase.snapshot, w.docs, prior, 1))]);
    FirstStep(c, w1, steps[1..], w2);
    var entry := Committed(generation, w.docs, post, map[write.key := seen], map[write.key := Some(seen)], [write]);
    var w3 := w.(docs := post, writers := w.writers[i := me.(phase := Finished(true))], log := w.log + [entry]);
    FirstStep(c, w2, steps[1..][1..], w3);
  }

  /** The first writer passes its fencing check and stalls; the second reclaims the lock and passes its own. */
  lemma {:induction false} BothFenced(c: Config, start: World, seen: Content, a: Write, b: Write, late: u128)
    requires Lenient(c) && Initial(start) && |start.writers| == 2
    requires a.Put? && b.Put? && a.key == b.key && start.docs == map[a.key := seen]
    requires start.record == LockState(0, 0) && late > c.staleAfter + 1
    ensures After(c, start, ToFence(0, a, 1) + ToFence(1, b, late), false) ==
            World(LockState(2, late), start.docs, [FencedWriter(a, seen, 1), FencedWriter(b, seen, 2)], [])
  {
    var idle := Writer([], map[], 0, Staging);
    assert start.writers == [idle, idle];
    var w := World(LockState(1, 1), start.docs, [FencedWriter(a, seen, 1), idle], []);
    var v := World(LockState(2, late), start.docs, [FencedWriter(a, seen, 1), FencedWriter(b, seen, 2)], []);
    assert [idle, idle][0 := FencedWriter(a, seen, 1)] == w.writers
        && w.writers[1 := FencedWriter(b, seen, 2)] == v.writers;
    FenceFirst(c, start, seen, a, w);
    FenceSecond(c, w, seen, b, late, v);
    AfterConcat(c, start, ToFence(0, a, 1), ToFence(1, b, late), false);
  }

  lemma {:induction false} FenceFirst(c: Config, start: World, seen: Content, a: Write, w: World)
    requires Lenient(c) && a.Put? && start.docs == map[a.key := seen] && start.record == LockState(0, 0)
    requires |start.writers| == 2 && start.writers[0] == Writer([], map[], 0, Staging)
    requires w == start.(record := LockState(1, 1), writers := start.writers[0 := FencedWriter(a, seen, 1)])
    ensures After(c, start, ToFence(0, a, 1), false) == w
  {
    ReachesFence(c, start, 0, a, seen, 1);
  }

  lemma {:induction false} FenceSecond(c: Config, w: World, seen: Content, b: Write, late: u128, v: World)
    requires Lenient(c) && b.Put? && w.docs == map[b.key := seen] && w.record == LockState(1, 1)
    requires late > c.staleAfter + 1
    requires |w.writers| == 2 && w.writers[1] == Writer([], map[], 0, Staging)
    requires v == w.(record := LockState(2, late), writers := w.writers[1 := FencedWriter(b, seen, 2)])
    ensures After(c, w, ToFence(1, b, late), false) == v
  {
    ReachesFence(c, w, 1, b, seen, late);
  }

  /** The second lands, then the first, over what it never read. */
  lemma {:induction false} BothLand(c: Config, w: World, seen: Content, a: Write, b: Write, late: u128)
    requires w == World(LockState(2, late), w.docs, [FencedWriter(a, seen, 1), FencedWriter(b, seen, 2)], [])
    requires a.Put? && b.Put? && a.key == b.key
    ensures var log := After(c, w, ToLanding(1) + ToLanding(0), false).log;
            |log| == 2 && log[0].Committed? && log[1].Committed? && log[0].generation == 2 && log[1].generation == 1
            && log[1].baseline == map[a.key := Some(seen)] && log[1].pre == w.docs[a.key := b.content]
  {
    ReachesLanding(c, w, 1, b, seen, 2);
    ReachesLanding(c, After(c, w, ToLanding(1), false), 0, a, seen, 1);
    AfterConcat(c, w, ToLanding(1), ToLanding(0), false);
  }

  /** The first writer stalls between its fencing check and its application, and the second commits in between. */
  function Interleaved(a: Write, b: Write, late: u128): seq<Step> {
    (ToFence(0, a, 1) + ToFence(1, b, late)) + (ToLanding(1) + ToLanding(0))
  }

  /** Without the assumption, whatever the limit for stale heartbeats, two writers can both land on the same document
      when the second comes late enough to reclaim the lock, and the last of them to write had validated against a
      content that is no longer there: the update in between is lost. */
  lemma {:induction false} WindowNeeded(c: Config, start: World, seen: Content, a: Write, b: Write, late: u128)
    requires Lenient(c) && Initial(start) && |start.writers| == 2
    requires a.Put? && b.Put? && a.key == b.key && start.docs == map[a.key := seen] && seen != b.content
    requires start.record == LockState(0, 0) && late > c.staleAfter + 1
    ensures var log := After(c, start, Interleaved(a, b, late), false).log;
            && |log| == 2 && log[0].Committed? && log[1].Committed? && log[1].generation < log[0].generation
            && a.key in log[1].baseline && At(log[1].pre, a.key) != log[1].baseline[a.key]
  {
    var fencing, landing := ToFence(0, a, 1) + ToFence(1, b, late), ToLanding(1) + ToLanding(0);
    BothFenced(c, start, seen, a, b, late);
    BothLand(c, After(c, start, fencing, false), seen, a, b, late);
    AfterConcat(c, start, fencing, landing, false);
    LostUpdate(After(c, start, Interleaved(a, b, late), false).log, start.docs, seen, a, b);
  }

  lemma {:induction false} LostUpdate(log: seq<Entry>, docs: State, seen: Content, a: Write, b: Write)
    requires |log| == 2 && log[1].Committed? && b.Put? && seen != b.content
    requires log[1].baseline == map[a.key := Some(seen)] && log[1].pre == docs[a.key := b.content]
    ensures a.key in log[1].baseline && At(log[1].pre, a.key) != log[1].baseline[a.key]
  {
  }
}
