/**
 What the writers of the commit protocol stage along a run, read off its steps, and what the commits that land replace:
 for every key the content its writer found at its first write.
 */
module Staging {
  import opened Keys
  import opened Store
  import opened CommitProtocol

  /** The step is taken, by this writer. */
  predicate Takes(c: Config, w: World, step: Step, windowed: bool, i: nat) {
    step.i == i && Enabled(c, w, step, windowed)
  }

  /** What the writer has staged is forgotten: it aborts, or the commit it releases the lock after has landed. */
  predicate Forgets(w: World, step: Step)
    requires step.i < |w.writers|
  {
    step.Abort? || (step.Release? && w.writers[step.i].phase == Finished(true))
  }

  /** For every key, the step at which the writer first wrote it since it last had nothing staged. */
  function FirstStaged(c: Config, start: World, steps: seq<Step>, windowed: bool, i: nat): map<Key, nat> {
    if steps == [] then map[]
    else
      var end := |steps| - 1;
      NextFirst(c, After(c, start, steps[..end], windowed), steps[end], windowed, i, end,
        FirstStaged(c, start, steps[..end], windowed, i))
  }

  function NextFirst(c: Config, w: World, step: Step, windowed: bool, i: nat, n: nat, before: map<Key, nat>):
      map<Key, nat> {
    if !Takes(c, w, step, windowed, i) then before
    else if Forgets(w, step) then map[]
    else if step.Stage? && step.write.key !in before then before[step.write.key := n]
    else before
  }

  /** The writes the writer has staged since then, in order. */
  function StagedWrites(c: Config, start: World, steps: seq<Step>, windowed: bool, i: nat): seq<Write> {
    if steps == [] then []
    else
      var end := |steps| - 1;
      NextWrites(c, After(c, start, steps[..end], windowed), steps[end], windowed, i,
        StagedWrites(c, start, steps[..end], windowed, i))
  }

  function NextWrites(c: Config, w: World, step: Step, windowed: bool, i: nat, before: seq<Write>): seq<Write> {
    if !Takes(c, w, step, windowed, i) then before
    else if Forgets(w, step) then []
    else if step.Stage? then before + [step.write]
    else before
  }

  // ----- What a writer holds -----

  lemma {:induction false} LastStep(c: Config, start: World, steps: seq<Step>, windowed: bool)
    requires steps != []
    ensures After(c, start, steps, windowed) ==
            Taken(c, After(c, start, steps[..|steps| - 1], windowed), steps[|steps| - 1], windowed)
  {
  }

  lemma {:induction false} StepSameWriters(c: Config, w: World, step: Step, windowed: bool)
    ensures |Taken(c, w, step, windowed).writers| == |w.writers|
  {
  }

  lemma {:induction false} SameWriters(c: Config, start: World, steps: seq<Step>, windowed: bool)
    ensures |After(c, start, steps, windowed).writers| == |start.writers|
  {
    if steps != [] {
      var end := |steps| - 1;
      SameWriters(c, start, steps[..end], windowed);
      LastStep(c, start, steps, windowed);
      StepSameWriters(c, After(c, start, steps[..end], windowed), steps[end], windowed);
    }
  }

  function NextBaseline(c: Config, w: World, step: Step, windowed: bool, i: nat, before: map<Key, Option<Content>>):
      map<Key, Option<Content>> {
    if !Takes(c, w, step, windowed, i) then before
    else if Forgets(w, step) then map[]
    else if step.Stage? && step.write.key !in before then before[step.write.key := At(w.docs, step.write.key)]
    else before
  }

  lemma {:induction false} OtherSteps(c: Config, w: World, step: Step, windowed: bool, i: nat)
    requires i < |w.writers| && i < |Taken(c, w, step, windowed).writers| && !Takes(c, w, step, windowed, i)
    ensures Taken(c, w, step, windowed).writers[i] == w.writers[i]
  {
  }

  lemma {:induction false} OwnSteps(c: Config, w: World, step: Step, windowed: bool, i: nat)
    requires i < |w.writers| && Takes(c, w, step, windowed, i) && !step.Stage?
    requires i < |Do(c, w, step, windowed).writers|
    ensures var before, after := w.writers[i], Do(c, w, step, windowed).writers[i];
            && after.pending == (if Forgets(w, step) then [] else before.pending)
            && after.baseline == (if Forgets(w, step) then map[] else before.baseline)
  {
  }

  /** What one step does to what a writer has staged. */
  lemma {:induction false} StagesInStep(c: Config, w: World, step: Step, windowed: bool, i: nat)
    requires i < |w.writers| && i < |Taken(c, w, step, windowed).writers|
    ensures var before, after := w.writers[i], Taken(c, w, step, windowed).writers[i];
            && after.pending == NextWrites(c, w, step, windowed, i, before.pending)
            && after.baseline == NextBaseline(c, w, step, windowed, i, before.baseline)
  {
    if !Takes(c, w, step, windowed, i) {
      OtherSteps(c, w, step, windowed, i);
    } else if !step.Stage? {
      OwnSteps(c, w, step, windowed, i);
    }
  }

  /** The baseline records for each key what the store held at the step on record. */
  ghost predicate Records(c: Config, start: World, steps: seq<Step>, windowed: bool,
      baseline: map<Key, Option<Content>>, first: map<Key, nat>) {
    && baseline.Keys == first.Keys
    && forall k :: k in first ==>
         first[k] < |steps| && baseline[k] == At(After(c, start, steps[..first[k]], windowed).docs, k)
  }

  lemma {:induction false} RecordsLonger(c: Config, start: World, steps: seq<Step>, windowed: bool,
      baseline: map<Key, Option<Content>>, first: map<Key, nat>)
    requires steps != [] && Records(c, start, steps[..|steps| - 1], windowed, baseline, first)
    ensures Records(c, start, steps, windowed, baseline, first)
  {
    forall k | k in first
      ensures first[k] < |steps| && baseline[k] == At(After(c, start, steps[..first[k]], windowed).docs, k)
    {
      assert steps[..|steps| - 1][..first[k]] == steps[..first[k]];
    }
  }

  lemma {:induction false} RecordsNext(c: Config, start: World, steps: seq<Step>, windowed: bool, i: nat,
      baseline: map<Key, Option<Content>>, first: map<Key, nat>)
    requires steps != [] && Records(c, start, steps[..|steps| - 1], windowed, baseline, first)
    ensures var end := |steps| - 1;
            var w := After(c, start, steps[..end], windowed);
            Records(c, start, steps, windowed, NextBaseline(c, w, steps[end], windowed, i, baseline),
              NextFirst(c, w, steps[end], windowed, i, end, first))
  {
    var end := |steps| - 1;
    var w, step := After(c, start, steps[..end], windowed), steps[end];
    RecordsLonger(c, start, steps, windowed, baseline, first);
    if Takes(c, w, step, windowed, i) && step.Stage? && step.write.key !in first {
      RecordsAdded(c, start, steps, windowed, baseline, first, step.write.key);
    }
  }

  lemma {:induction false} RecordsAdded(c: Config, start: World, steps: seq<Step>, windowed: bool,
      baseline: map<Key, Option<Content>>, first: map<Key, nat>, key: Key)
    requires steps != [] && Records(c, start, steps, windowed, baseline, first)
    ensures var end := |steps| - 1;
            Records(c, start, steps, windowed,
              baseline[key := At(After(c, start, steps[..end], windowed).docs, key)], first[key := end])
  {
  }

  /** The baseline records, for every key written, what the store held when the key was first written, and the pending
      writes are the staged ones. */
  lemma {:induction false} HoldsStaged(c: Config, start: World, steps: seq<Step>, windowed: bool, i: nat)
    requires Initial(start) && i < |start.writers| == |After(c, start, steps, windowed).writers|
    ensures var me := After(c, start, steps, windowed).writers[i];
            && me.pending == StagedWrites(c, start, steps, windowed, i)
            && Records(c, start, steps, windowed, me.baseline, FirstStaged(c, start, steps, windowed, i))
  {
    if steps != [] {
      var end := |steps| - 1;
      SameWriters(c, start, steps[..end], windowed);
      HoldsStaged(c, start, steps[..end], windowed, i);
      HoldsNext(c, start, steps, windowed, i);
    }
  }

  lemma {:induction false} HoldsNext(c: Config, start: World, steps: seq<Step>, windowed: bool, i: nat)
    requires steps != [] && i < |After(c, start, steps, windowed).writers|
    requires i < |After(c, start, steps[..|steps| - 1], windowed).writers|
    requires var front := steps[..|steps| - 1];
             var me := After(c, start, front, windowed).writers[i];
             && me.pending == StagedWrites(c, start, front, windowed, i)
             && Records(c, start, front, windowed, me.baseline, FirstStaged(c, start, front, windowed, i))
    ensures var me := After(c, start, steps, windowed).writers[i];
            && me.pending == StagedWrites(c, start, steps, windowed, i)
            && Records(c, start, steps, windowed, me.baseline, FirstStaged(c, start, steps, windowed, i))
  {
    var end := |steps| - 1;
    var w := After(c, start, steps[..end], windowed);
    LastStep(c, start, steps, windowed);
    StagesInStep(c, w, steps[end], windowed, i);
    RecordsNext(c, start, steps, windowed, i, w.writers[i].baseline,
      FirstStaged(c, start, steps[..end], windowed, i));
  }

  predicate StagesAt(c: Config, start: World, steps: seq<Step>, windowed: bool, i: nat, key: Key, n: nat)
    requires n < |steps|
  {
    Takes(c, After(c, start, steps[..n], windowed), steps[n], windowed, i)
    && steps[n].Stage? && steps[n].write.key == key
  }

  predicate ForgetsAt(c: Config, start: World, steps: seq<Step>, windowed: bool, i: nat, n: nat)
    requires n < |steps|
  {
    var w := After(c, start, steps[..n], windowed);
    Takes(c, w, steps[n], windowed, i) && Forgets(w, steps[n])
  }

  lemma {:induction false} AtPrefix(c: Config, start: World, steps: seq<Step>, windowed: bool, i: nat, key: Key)
    requires steps != []
    ensures var front := steps[..|steps| - 1];
            forall n :: 0 <= n < |front| ==>
              && (StagesAt(c, start, front, windowed, i, key, n) <==> StagesAt(c, start, steps, windowed, i, key, n))
              && (ForgetsAt(c, start, front, windowed, i, n) <==> ForgetsAt(c, start, steps, windowed, i, n))
  {
    var front := steps[..|steps| - 1];
    forall n | 0 <= n < |front|
      ensures StagesAt(c, start, front, windowed, i, key, n) <==> StagesAt(c, start, steps, windowed, i, key, n)
      ensures ForgetsAt(c, start, front, windowed, i, n) <==> ForgetsAt(c, start, steps, windowed, i, n)
    {
      assert front[..n] == steps[..n] && front[n] == steps[n];
    }
  }

  /** Something is forgotten after step `l` and before step `end`. */
  ghost predicate ForgottenBetween(c: Config, start: World, steps: seq<Step>, windowed: bool, i: nat, l: nat, end: nat)
    requires end <= |steps|
  {
    exists r :: l < r < end && ForgetsAt(c, start, steps, windowed, i, r)
  }

  /** Step `m` is the writer's first write of the key: every write of it before that was forgotten, and nothing has been
      forgotten since. */
  ghost predicate IsFirst(c: Config, start: World, steps: seq<Step>, windowed: bool, i: nat, key: Key, m: nat) {
    && m < |steps| && StagesAt(c, start, steps, windowed, i, key, m)
    && !ForgottenBetween(c, start, steps, windowed, i, m, |steps|)
    && AllForgotten(c, start, steps, windowed, i, key, m)
  }

  ghost predicate AllForgotten(c: Config, start: World, steps: seq<Step>, windowed: bool, i: nat, key: Key, end: nat)
    requires end <= |steps|
  {
    forall l :: 0 <= l < end && StagesAt(c, start, steps, windowed, i, key, l) ==>
      ForgottenBetween(c, start, steps, windowed, i, l, end)
  }

  /** What the step on record means, and what it means that there is none. */
  lemma {:induction false} FirstStagedIsFirst(c: Config, start: World, steps: seq<Step>, windowed: bool, i: nat,
      key: Key)
    ensures var first := FirstStaged(c, start, steps, windowed, i);
            if key in first then IsFirst(c, start, steps, windowed, i, key, first[key])
            else AllForgotten(c, start, steps, windowed, i, key, |steps|)
  {
    if steps != [] {
      var end := |steps| - 1;
      var front, w, first := steps[..end], After(c, start, steps[..end], windowed),
          FirstStaged(c, start, steps[..end], windowed, i);
      FirstStagedIsFirst(c, start, front, windowed, i, key);
      if ForgetsAt(c, start, steps, windowed, i, end) {
        ForgottenNow(c, start, steps, windowed, i, key);
      } else if key in first {
        FirstKept(c, start, steps, windowed, i, key, first[key]);
      } else {
        ForgottenBefore(c, start, steps, windowed, i, key);
      }
    }
  }

  lemma {:induction false} ForgottenNow(c: Config, start: World, steps: seq<Step>, windowed: bool, i: nat, key: Key)
    requires steps != [] && ForgetsAt(c, start, steps, windowed, i, |steps| - 1)
    ensures AllForgotten(c, start, steps, windowed, i, key, |steps|)
  {
  }

  lemma {:induction false} FirstKept(c: Config, start: World, steps: seq<Step>, windowed: bool, i: nat, key: Key,
      m: nat)
    requires steps != [] && IsFirst(c, start, steps[..|steps| - 1], windowed, i, key, m)
    requires !ForgetsAt(c, start, steps, windowed, i, |steps| - 1)
    ensures IsFirst(c, start, steps, windowed, i, key, m)
  {
    AtPrefix(c, start, steps, windowed, i, key);
    ForgottenPrefix(c, start, steps, windowed, i, key, m);
  }

  lemma {:induction false} ForgottenPrefix(c: Config, start: World, steps: seq<Step>, windowed: bool, i: nat, key: Key,
      end: nat)
    requires steps != [] && end < |steps|
    ensures AllForgotten(c, start, steps[..|steps| - 1], windowed, i, key, end) <==>
            AllForgotten(c, start, steps, windowed, i, key, end)
  {
    var front := steps[..|steps| - 1];
    AtPrefix(c, start, steps, windowed, i, key);
    forall l | 0 <= l < end
      ensures ForgottenBetween(c, start, front, windowed, i, l, end) <==>
              ForgottenBetween(c, start, steps, windowed, i, l, end)
    {
    }
  }

  /** With every earlier write of the key forgotten, a last step that writes it is the first, and any other leaves it
      so. */
  lemma {:induction false} ForgottenBefore(c: Config, start: World, steps: seq<Step>, windowed: bool, i: nat, key: Key)
    requires steps != [] && !ForgetsAt(c, start, steps, windowed, i, |steps| - 1)
    requires AllForgotten(c, start, steps[..|steps| - 1], windowed, i, key, |steps| - 1)
    ensures if StagesAt(c, start, steps, windowed, i, key, |steps| - 1)
            then IsFirst(c, start, steps, windowed, i, key, |steps| - 1)
            else AllForgotten(c, start, steps, windowed, i, key, |steps|)
  {
    var end := |steps| - 1;
    ForgottenPrefix(c, start, steps, windowed, i, key, end);
    forall l | 0 <= l < end && ForgottenBetween(c, start, steps, windowed, i, l, end)
      ensures ForgottenBetween(c, start, steps, windowed, i, l, |steps|)
    {
    }
  }

  // ----- What a commit replaces -----

  /** Entry `n` of the log was written at step `p`, by writer `i` accepting its applied writes. */
  ghost predicate LandsAt(c: Config, start: World, steps: seq<Step>, windowed: bool, n: nat, p: nat, i: nat) {
    && p < |steps| && steps[p] == Accept(i) && n < |After(c, start, steps, windowed).log|
    && var w := After(c, start, steps[..p], windowed);
       && i < |w.writers| && |w.log| == n
       && var me, e := w.writers[i], After(c, start, steps, windowed).log[n];
          e.Committed? && e.generation == me.generation && e.baseline == me.baseline && e.writes == me.pending
  }

  lemma {:induction false} LogGrows(c: Config, w: World, step: Step, windowed: bool)
    ensures var log := Taken(c, w, step, windowed).log;
            && |w.log| <= |log| <= |w.log| + 1 && log[..|w.log|] == w.log
            && (|log| > |w.log| && log[|w.log|].Committed? ==>
                  && step.Accept? && step.i < |w.writers|
                  && var me, e := w.writers[step.i], log[|w.log|];
                     e.generation == me.generation && e.baseline == me.baseline && e.writes == me.pending)
  {
  }

  /** Every commit in the log landed at some step. */
  lemma {:induction false} Landed(c: Config, start: World, steps: seq<Step>, windowed: bool, n: nat)
    requires Initial(start) && n < |After(c, start, steps, windowed).log|
    requires After(c, start, steps, windowed).log[n].Committed?
    ensures exists p, i :: LandsAt(c, start, steps, windowed, n, p, i)
  {
    var front := steps[..|steps| - 1];
    if n < |After(c, start, front, windowed).log| {
      LogPrefix(c, start, steps, windowed, n);
      Landed(c, start, front, windowed, n);
      var p: nat, i: nat :| LandsAt(c, start, front, windowed, n, p, i);
      LandedEarlier(c, start, steps, windowed, n, p, i);
    } else {
      LandsLast(c, start, steps, windowed, n);
    }
  }

  lemma {:induction false} LogPrefix(c: Config, start: World, steps: seq<Step>, windowed: bool, n: nat)
    requires steps != [] && n < |After(c, start, steps[..|steps| - 1], windowed).log|
    ensures n < |After(c, start, steps, windowed).log|
    ensures After(c, start, steps, windowed).log[n] == After(c, start, steps[..|steps| - 1], windowed).log[n]
  {
    var end := |steps| - 1;
    var w := After(c, start, steps[..end], windowed);
    LastStep(c, start, steps, windowed);
    LogGrows(c, w, steps[end], windowed);
    assert After(c, start, steps, windowed).log[..|w.log|][n] == w.log[n];
  }

  lemma {:induction false} LandedEarlier(c: Config, start: World, steps: seq<Step>, windowed: bool, n: nat, p: nat,
      i: nat)
    requires steps != [] && LandsAt(c, start, steps[..|steps| - 1], windowed, n, p, i)
    ensures LandsAt(c, start, steps, windowed, n, p, i)
  {
    var front := steps[..|steps| - 1];
    LogPrefix(c, start, steps, windowed, n);
    assert front[..p] == steps[..p] && front[p] == steps[p];
  }

  lemma {:induction false} LandsLast(c: Config, start: World, steps: seq<Step>, windowed: bool, n: nat)
    requires steps != [] && |After(c, start, steps[..|steps| - 1], windowed).log| <= n
    requires n < |After(c, start, steps, windowed).log| && After(c, start, steps, windowed).log[n].Committed?
    ensures LandsAt(c, start, steps, windowed, n, |steps| - 1, steps[|steps| - 1].i)
  {
    var end := |steps| - 1;
    LastStep(c, start, steps, windowed);
    LogGrows(c, After(c, start, steps[..end], windowed), steps[end], windowed);
  }

  /** A commit writes exactly what its writer staged, and over every key it writes it finds what the store held when
      that writer first wrote the key: no commit in between has left the key different. */
  lemma {:induction false} CommitReplacesFirstSeen(c: Config, start: World, steps: seq<Step>, n: nat, p: nat, i: nat)
    requires Initial(start) && LandsAt(c, start, steps, true, n, p, i)
    ensures var e, first := After(c, start, steps, true).log[n], FirstStaged(c, start, steps[..p], true, i);
            && e.writes == StagedWrites(c, start, steps[..p], true, i)
            && forall k :: k in Store.Touched(e.writes) ==>
                 k in first && first[k] < p && At(e.pre, k) == At(After(c, start, steps[..first[k]], true).docs, k)
  {
    var e, first := After(c, start, steps, true).log[n], FirstStaged(c, start, steps[..p], true, i);
    CommitIsAtomic(c, start, steps, n);
    SameWriters(c, start, steps[..p], true);
    HoldsStaged(c, start, steps[..p], true, i);
    assert Records(c, start, steps[..p], true, e.baseline, first);
    forall k | k in Store.Touched(e.writes)
      ensures k in first && first[k] < p && At(e.pre, k) == At(After(c, start, steps[..first[k]], true).docs, k)
    {
      assert steps[..p][..first[k]] == steps[..first[k]];
    }
  }
}
