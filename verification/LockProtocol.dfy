/**
 Any number of holders, their heartbeats, releases and crashes, interleaved over one lock record. Each act is one
 read-decide-write under the operating system's lock on the file, so it is one step; a guard's heartbeat runs only
 until its drop has stopped and joined it, or its process crashes.
 */
module LockProtocol {
  import opened LockRecord

  const GENERATIONS := 0x1_0000_0000_0000_0000

  datatype Phase = Held | Stopped | Released | Crashed

  datatype Guard = Guard(generation: u64, phase: Phase)

  /** The record on disk and every guard ever granted, oldest first. */
  datatype World = World(record: LockState, guards: seq<Guard>)

  datatype Step =
    | Attempt(now: u128)               // an acquire attempt, by anyone
    | Touch(guard: nat, now: u128)     // a heartbeat of a held guard
    | Stop(guard: nat)                 // a drop has stopped and joined its heartbeat
    | MarkFree(guard: nat)             // the drop's write
    | Crash(guard: nat)                // the holder's process dies, heartbeat included

  predicate In(w: World, guard: nat, phase: Phase) {
    guard < |w.guards| && w.guards[guard].phase == phase
  }

  function SetPhase(w: World, guard: nat, phase: Phase): World
    requires guard < |w.guards|
  {
    w.(guards := w.guards[guard := w.guards[guard].(phase := phase)])
  }

  /** The effect of a step; a step that cannot happen changes nothing. */
  function Do(w: World, step: Step, staleAfter: nat): World {
    match step
    case Attempt(now) =>
      if w.record.IsFree(now, staleAfter) then
        var record := Acquired(w.record, now);
        World(record, w.guards + [Guard(record.generation, Held)])
      else w
    case Touch(i, now) =>
      if In(w, i, Held) then w.(record := Refreshed(w.record, w.guards[i].generation, now)) else w
    case Stop(i) =>
      if In(w, i, Held) then SetPhase(w, i, Stopped) else w
    case MarkFree(i) =>
      if In(w, i, Stopped) then SetPhase(w, i, Released).(record := MarkedFree(w.record, w.guards[i].generation)) else w
    case Crash(i) =>
      if In(w, i, Held) || In(w, i, Stopped) then SetPhase(w, i, Crashed) else w
  }

  /** The state after a run of steps, starting from whatever record the file holds. */
  function After(start: LockState, steps: seq<Step>, staleAfter: nat): World {
    if steps == [] then World(start, [])
    else Do(After(start, steps[..|steps| - 1], staleAfter), steps[|steps| - 1], staleAfter)
  }

  /** The guard's generation is the one on disk: what the fencing check tests. */
  predicate Current(w: World, guard: nat) {
    guard < |w.guards| && w.record.generation == w.guards[guard].generation
  }

  // ----- What every reachable state satisfies -----

  /** Generations count up from the start record's, and a released record that has not been taken since reads free. */
  ghost predicate Inv(w: World, start: LockState) {
    && w.record.generation == start.generation + |w.guards|
    && (forall i :: 0 <= i < |w.guards| ==> w.guards[i].generation == start.generation + i + 1)
    && (forall i :: 0 <= i < |w.guards| && w.guards[i].phase == Released && Current(w, i) ==>
          w.record.heartbeat == FREE_HEARTBEAT)
  }

  lemma {:induction false} StepKeeps(w: World, step: Step, staleAfter: nat, start: LockState)
    requires Inv(w, start) && start.generation + |Do(w, step, staleAfter).guards| < GENERATIONS
    ensures Inv(Do(w, step, staleAfter), start)
    ensures |w.guards| <= |Do(w, step, staleAfter).guards|
  {
  }

  lemma {:induction false} GuardsGrow(start: LockState, steps: seq<Step>, n: nat, staleAfter: nat)
    requires n <= |steps|
    ensures |After(start, steps[..n], staleAfter).guards| <= |After(start, steps, staleAfter).guards|
  {
    if n < |steps| {
      var front := steps[..|steps| - 1];
      GuardsGrow(start, front, n, staleAfter);
      assert front[..n] == steps[..n];
    } else {
      assert steps[..n] == steps;
    }
  }

  /** Short of exhausting the 64-bit counter, the invariant holds after any run. */
  lemma {:induction false} RunKeeps(start: LockState, steps: seq<Step>, staleAfter: nat)
    requires start.generation + |After(start, steps, staleAfter).guards| < GENERATIONS
    ensures Inv(After(start, steps, staleAfter), start)
  {
    if steps != [] {
      var front := steps[..|steps| - 1];
      GuardsGrow(start, steps, |front|, staleAfter);
      RunKeeps(start, front, staleAfter);
      StepKeeps(After(start, front, staleAfter), steps[|steps| - 1], staleAfter, start);
    }
  }

  /** Every acquire returns a generation above the start record's and above all granted before it. */
  lemma {:induction false} GenerationsIncrease(start: LockState, steps: seq<Step>, staleAfter: nat, i: nat, j: nat)
    requires start.generation + |After(start, steps, staleAfter).guards| < GENERATIONS
    requires i < j < |After(start, steps, staleAfter).guards|
    ensures var guards := After(start, steps, staleAfter).guards;
            start.generation < guards[i].generation < guards[j].generation
  {
    RunKeeps(start, steps, staleAfter);
  }

  /** At most one guard passes the fencing check. */
  lemma {:induction false} OneCurrent(start: LockState, steps: seq<Step>, staleAfter: nat, i: nat, j: nat)
    requires start.generation + |After(start, steps, staleAfter).guards| < GENERATIONS
    requires Current(After(start, steps, staleAfter), i) && Current(After(start, steps, staleAfter), j)
    ensures i == j == |After(start, steps, staleAfter).guards| - 1
  {
    RunKeeps(start, steps, staleAfter);
  }

  /** A guard that fails the fencing check at some point fails it ever after. */
  lemma {:induction false} SupersededForever(start: LockState, steps: seq<Step>, n: nat, staleAfter: nat, i: nat)
    requires start.generation + |After(start, steps, staleAfter).guards| < GENERATIONS
    requires n <= |steps| && i < |After(start, steps[..n], staleAfter).guards|
    requires !Current(After(start, steps[..n], staleAfter), i)
    ensures !Current(After(start, steps, staleAfter), i)
  {
    GuardsGrow(start, steps, n, staleAfter);
    RunKeeps(start, steps[..n], staleAfter);
    RunKeeps(start, steps, staleAfter);
  }

  /** After a guard's drop, nothing but a later acquire makes the record read as held again: the next attempt, at any
      time, is granted. */
  lemma {:induction false} ReleasedStaysFree(start: LockState, steps: seq<Step>, staleAfter: nat, i: nat, now: u128)
    requires start.generation + |After(start, steps, staleAfter).guards| < GENERATIONS
    requires In(After(start, steps, staleAfter), i, Released) && Current(After(start, steps, staleAfter), i)
    ensures |After(start, steps + [Attempt(now)], staleAfter).guards| == |After(start, steps, staleAfter).guards| + 1
  {
    RunKeeps(start, steps, staleAfter);
    assert (steps + [Attempt(now)])[..|steps|] == steps;
  }

  /** A guard's drop: its heartbeat is stopped, then the record is marked free. */
  function Drop(i: nat): seq<Step> {
    [Stop(i), MarkFree(i)]
  }

  lemma {:induction false} AfterTwo(start: LockState, steps: seq<Step>, a: Step, b: Step, staleAfter: nat)
    ensures After(start, steps + [a, b], staleAfter) ==
            Do(Do(After(start, steps, staleAfter), a, staleAfter), b, staleAfter)
  {
    assert (steps + [a, b])[..|steps| + 1] == steps + [a] && (steps + [a])[..|steps|] == steps;
  }

  /** The drop of a held guard that still is current frees the record, and of one that is not leaves the record to its
      new holder. */
  lemma {:induction false} DropFrees(start: LockState, steps: seq<Step>, staleAfter: nat, i: nat)
    requires In(After(start, steps, staleAfter), i, Held)
    ensures var w, dropped := After(start, steps, staleAfter), After(start, steps + Drop(i), staleAfter);
            && In(dropped, i, Released) && |dropped.guards| == |w.guards| && (Current(dropped, i) <==> Current(w, i))
            && dropped.record ==
               if Current(w, i) then LockState(w.record.generation, FREE_HEARTBEAT) else w.record
  {
    AfterTwo(start, steps, Stop(i), MarkFree(i), staleAfter);
  }

  /** So whoever attempts first after it, at any time, is granted the lock. */
  lemma {:induction false} DropLetsIn(start: LockState, steps: seq<Step>, staleAfter: nat, i: nat, now: u128)
    requires start.generation + |After(start, steps, staleAfter).guards| < GENERATIONS
    requires In(After(start, steps, staleAfter), i, Held) && Current(After(start, steps, staleAfter), i)
    ensures |After(start, steps + Drop(i) + [Attempt(now)], staleAfter).guards| ==
            |After(start, steps, staleAfter).guards| + 1
  {
    DropFrees(start, steps, staleAfter, i);
    ReleasedStaysFree(start, steps + Drop(i), staleAfter, i, now);
  }

  /** A crash leaves the record alone, and ends the guard for good: it beats no more. */
  lemma {:induction false} CrashSilences(start: LockState, steps: seq<Step>, staleAfter: nat, i: nat)
    requires In(After(start, steps, staleAfter), i, Held) || In(After(start, steps, staleAfter), i, Stopped)
    ensures var w, crashed := After(start, steps, staleAfter), After(start, steps + [Crash(i)], staleAfter);
            In(crashed, i, Crashed) && crashed.record == w.record
  {
    assert (steps + [Crash(i)])[..|steps|] == steps;
  }

  lemma {:induction false} CrashedStays(w: World, step: Step, staleAfter: nat, i: nat)
    requires In(w, i, Crashed)
    ensures In(Do(w, step, staleAfter), i, Crashed)
  {
  }

  lemma {:induction false} NoBeat(start: LockState, steps: seq<Step>, staleAfter: nat, i: nat)
    requires steps != [] && In(After(start, steps[..|steps| - 1], staleAfter), i, Crashed)
    ensures LastBeat(start, steps, staleAfter, i) == LastBeat(start, steps[..|steps| - 1], staleAfter, i)
  {
  }

  lemma {:induction false} CrashedForever(start: LockState, steps: seq<Step>, n: nat, staleAfter: nat, i: nat)
    requires n <= |steps| && In(After(start, steps[..n], staleAfter), i, Crashed)
    ensures In(After(start, steps, staleAfter), i, Crashed)
    ensures LastBeat(start, steps, staleAfter, i) == LastBeat(start, steps[..n], staleAfter, i)
  {
    if n == |steps| {
      assert steps[..n] == steps;
    } else {
      var end := |steps| - 1;
      assert steps[..end][..n] == steps[..n];
      CrashedForever(start, steps[..end], n, staleAfter, i);
      LastStep(start, steps, staleAfter);
      CrashedStays(After(start, steps[..end], staleAfter), steps[end], staleAfter, i);
      NoBeat(start, steps, staleAfter, i);
    }
  }

  // ----- Time -----

  function TimeOf(step: Step): nat {
    match step
    case Attempt(now) => now
    case Touch(_, now) => now
    case _ => 1
  }

  /** The clock is positive: no heartbeat is mistaken for a release. */
  ghost predicate PositiveTimes(steps: seq<Step>) {
    forall n :: 0 <= n < |steps| ==> TimeOf(steps[n]) > 0
  }

  /** When the guard last wrote a heartbeat: at its acquire, or at its latest touch since. */
  function LastBeat(start: LockState, steps: seq<Step>, staleAfter: nat, guard: nat): nat {
    if steps == [] then 0
    else
      var front, last := steps[..|steps| - 1], steps[|steps| - 1];
      var before := After(start, front, staleAfter);
      if last.Attempt? && |before.guards| == guard && before.record.IsFree(last.now, staleAfter) then last.now
      else if last.Touch? && last.guard == guard && In(before, guard, Held) then last.now
      else LastBeat(start, front, staleAfter, guard)
  }

  /** The heartbeat on disk is the current holder's own latest one. */
  lemma {:induction false} HeartbeatOnDisk(start: LockState, steps: seq<Step>, staleAfter: nat, i: nat)
    requires start.generation + |After(start, steps, staleAfter).guards| < GENERATIONS && PositiveTimes(steps)
    requires var w := After(start, steps, staleAfter);
             Current(w, i) && w.guards[i].phase != Released
    ensures After(start, steps, staleAfter).record.heartbeat == LastBeat(start, steps, staleAfter, i) > 0
  {
    RunKeeps(start, steps, staleAfter);
    if steps != [] {
      var front, last := steps[..|steps| - 1], steps[|steps| - 1];
      GuardsGrow(start, steps, |front|, staleAfter);
      RunKeeps(start, front, staleAfter);
      var before := After(start, front, staleAfter);
      if i < |before.guards| {
        assert Current(before, i);
        HeartbeatOnDisk(start, front, staleAfter, i);
      }
    }
  }

  /** An attempt takes the lock from a holder exactly when the holder's last heartbeat is more than `staleAfter` old. */
  lemma {:induction false} ReclaimedWhenSilent(start: LockState, steps: seq<Step>, staleAfter: nat, i: nat, now: u128)
    requires start.generation + |After(start, steps, staleAfter).guards| < GENERATIONS && PositiveTimes(steps)
    requires var w := After(start, steps, staleAfter);
             Current(w, i) && w.guards[i].phase != Released
    ensures After(start, steps + [Attempt(now)], staleAfter) != After(start, steps, staleAfter) <==>
            now > LastBeat(start, steps, staleAfter, i) + staleAfter
  {
    HeartbeatOnDisk(start, steps, staleAfter, i);
    assert (steps + [Attempt(now)])[..|steps|] == steps;
  }

  /** At every attempt after the first `n` steps, the guard's last heartbeat is at most `staleAfter` old. */
  ghost predicate KeepsBeating(start: LockState, steps: seq<Step>, n: nat, staleAfter: nat, guard: nat)
    requires n <= |steps|
  {
    forall m :: n <= m < |steps| && steps[m].Attempt? ==>
      steps[m].now <= LastBeat(start, steps[..m], staleAfter, guard) + staleAfter
  }

  /** The guard's holder neither drops it nor crashes after the first `n` steps. */
  ghost predicate KeepsHolding(steps: seq<Step>, n: nat, guard: nat)
    requires n <= |steps|
  {
    forall m :: n <= m < |steps| ==> steps[m] != Stop(guard) && steps[m] != Crash(guard)
  }

  lemma {:induction false} HolderStep(start: LockState, front: seq<Step>, last: Step, staleAfter: nat, i: nat)
    requires PositiveTimes(front)
    requires start.generation + |After(start, front, staleAfter).guards| < GENERATIONS
    requires In(After(start, front, staleAfter), i, Held) && Current(After(start, front, staleAfter), i)
    requires last != Stop(i) && last != Crash(i)
    requires last.Attempt? ==> last.now <= LastBeat(start, front, staleAfter, i) + staleAfter
    ensures var w := Do(After(start, front, staleAfter), last, staleAfter);
            In(w, i, Held) && Current(w, i) && |w.guards| == |After(start, front, staleAfter).guards|
  {
    RunKeeps(start, front, staleAfter);
    if last.Attempt? {
      HeartbeatOnDisk(start, front, staleAfter, i);
    }
  }

  lemma {:induction false} LastStep(start: LockState, steps: seq<Step>, staleAfter: nat)
    requires steps != []
    ensures After(start, steps, staleAfter) ==
            Do(After(start, steps[..|steps| - 1], staleAfter), steps[|steps| - 1], staleAfter)
  {
  }

  /** A holder found fresh by every attempt is never reclaimed, whatever anyone else does. */
  lemma {:induction false} FreshHolderKept(start: LockState, steps: seq<Step>, n: nat, staleAfter: nat, i: nat)
    requires n <= |steps| && PositiveTimes(steps)
    requires start.generation + |After(start, steps[..n], staleAfter).guards| < GENERATIONS
    requires In(After(start, steps[..n], staleAfter), i, Held) && Current(After(start, steps[..n], staleAfter), i)
    requires KeepsHolding(steps, n, i) && KeepsBeating(start, steps, n, staleAfter, i)
    ensures In(After(start, steps, staleAfter), i, Held) && Current(After(start, steps, staleAfter), i)
    ensures |After(start, steps, staleAfter).guards| == |After(start, steps[..n], staleAfter).guards|
  {
    if n == |steps| {
      assert steps[..n] == steps;
    } else {
      var end := |steps| - 1;
      var front := steps[..end];
      PrefixKeeps(start, steps, end, n, staleAfter, i);
      assert front[..n] == steps[..n];
      FreshHolderKept(start, front, n, staleAfter, i);
      assert steps[end].Attempt? ==> steps[end].now <= LastBeat(start, front, staleAfter, i) + staleAfter;
      HolderStep(start, front, steps[end], staleAfter, i);
      LastStep(start, steps, staleAfter);
    }
  }

  lemma {:induction false} PrefixKeeps(start: LockState, steps: seq<Step>, end: nat, n: nat, staleAfter: nat, i: nat)
    requires n <= end <= |steps| && PositiveTimes(steps)
    requires KeepsHolding(steps, n, i) && KeepsBeating(start, steps, n, staleAfter, i)
    ensures PositiveTimes(steps[..end]) && KeepsHolding(steps[..end], n, i)
        && KeepsBeating(start, steps[..end], n, staleAfter, i)
  {
    assert forall m :: 0 <= m < end ==> steps[..end][..m] == steps[..m];
  }

  // ----- What a holder can promise -----

  predicate Timed(step: Step) {
    step.Attempt? || step.Touch?
  }

  /** The clock is monotone: no step reads an earlier time than one before it, and none a later one than the end. */
  ghost predicate TimesRise(steps: seq<Step>, end: nat) {
    && (forall a, b :: 0 <= a < b < |steps| && Timed(steps[a]) && Timed(steps[b]) ==>
          TimeOf(steps[a]) <= TimeOf(steps[b]))
    && (forall a :: 0 <= a < |steps| && Timed(steps[a]) ==> TimeOf(steps[a]) <= end)
  }

  /** From the first `n` steps on, each of the guard's heartbeats comes within `staleAfter` of the one before, and the
      run ends within `staleAfter` of the last. */
  ghost predicate BeatsSpaced(start: LockState, steps: seq<Step>, n: nat, end: nat, staleAfter: nat, guard: nat)
    requires n <= |steps|
  {
    && (forall m :: n <= m < |steps| && steps[m].Touch? && steps[m].guard == guard ==>
          steps[m].now <= LastBeat(start, steps[..m], staleAfter, guard) + staleAfter)
    && end <= LastBeat(start, steps, staleAfter, guard) + staleAfter
  }

  /** A guard its holder does not give up stays held. */
  lemma {:induction false} StillHeld(start: LockState, steps: seq<Step>, n: nat, staleAfter: nat, i: nat)
    requires n <= |steps| && KeepsHolding(steps, n, i) && In(After(start, steps[..n], staleAfter), i, Held)
    ensures In(After(start, steps, staleAfter), i, Held)
  {
    if n == |steps| {
      assert steps[..n] == steps;
    } else {
      var end := |steps| - 1;
      assert steps[..end][..n] == steps[..n];
      StillHeld(start, steps[..end], n, staleAfter, i);
    }
  }

  /** The guard's last heartbeat before each step and at the end. */
  ghost function Beats(start: LockState, steps: seq<Step>, staleAfter: nat, guard: nat): (beats: seq<nat>)
    ensures |beats| == |steps| + 1
    ensures forall e :: 0 <= e <= |steps| ==> beats[e] == LastBeat(start, steps[..e], staleAfter, guard)
  {
    seq(|steps| + 1, e requires 0 <= e <= |steps| => LastBeat(start, steps[..e], staleAfter, guard))
  }

  /** A heartbeat of the guard moves its last heartbeat, and nothing else does. */
  ghost predicate Moves(beats: seq<nat>, steps: seq<Step>, m: nat, guard: nat)
    requires m < |steps| < |beats|
  {
    beats[m + 1] == if steps[m].Touch? && steps[m].guard == guard then steps[m].now else beats[m]
  }

  lemma {:induction false} HeldMoves(start: LockState, steps: seq<Step>, n: nat, m: nat, staleAfter: nat, i: nat)
    requires n <= m < |steps| && KeepsHolding(steps, n, i) && In(After(start, steps[..n], staleAfter), i, Held)
    ensures Moves(Beats(start, steps, staleAfter, i), steps, m, i)
  {
    assert steps[..m][..n] == steps[..n] && steps[..m + 1][..m] == steps[..m];
    StillHeld(start, steps[..m], n, staleAfter, i);
  }

  /** No time read in the first `e` steps is past the bound. */
  ghost predicate NoneAfter(steps: seq<Step>, e: nat, bound: nat)
    requires e <= |steps|
  {
    forall m :: 0 <= m < e && Timed(steps[m]) ==> TimeOf(steps[m]) <= bound
  }

  /** Working back from the end of the run: at every point, no time read so far is more than `staleAfter` past the
      guard's last heartbeat there. */
  lemma {:induction false} NoneTooLate(steps: seq<Step>, beats: seq<nat>, n: nat, e: nat, end: nat, staleAfter: nat,
      i: nat)
    requires n <= e <= |steps| && |beats| == |steps| + 1 && TimesRise(steps, end) && end <= beats[|steps|] + staleAfter
    requires forall m :: n <= m < |steps| ==> Moves(beats, steps, m, i)
    requires forall m :: n <= m < |steps| && steps[m].Touch? && steps[m].guard == i ==>
               steps[m].now <= beats[m] + staleAfter
    ensures NoneAfter(steps, e, beats[e] + staleAfter)
    decreases |steps| - e
  {
    if e < |steps| {
      NoneTooLate(steps, beats, n, e + 1, end, staleAfter, i);
      assert Moves(beats, steps, e, i);
      if steps[e].Touch? && steps[e].guard == i {
        assert forall m :: 0 <= m < e && Timed(steps[m]) ==> TimeOf(steps[m]) <= TimeOf(steps[e]);
      }
    }
  }

  /** So every attempt finds the guard's last heartbeat fresh. */
  lemma {:induction false} AttemptsFindFresh(steps: seq<Step>, beats: seq<nat>, n: nat, end: nat, staleAfter: nat,
      i: nat)
    requires n <= |steps| && |beats| == |steps| + 1 && TimesRise(steps, end) && end <= beats[|steps|] + staleAfter
    requires forall m :: n <= m < |steps| ==> Moves(beats, steps, m, i)
    requires forall m :: n <= m < |steps| && steps[m].Touch? && steps[m].guard == i ==>
               steps[m].now <= beats[m] + staleAfter
    ensures forall m :: n <= m < |steps| && steps[m].Attempt? ==> steps[m].now <= beats[m] + staleAfter
  {
    forall m | n <= m < |steps| && steps[m].Attempt? ensures steps[m].now <= beats[m] + staleAfter {
      NoneTooLate(steps, beats, n, m + 1, end, staleAfter, i);
      assert Moves(beats, steps, m, i) && TimeOf(steps[m]) == steps[m].now;
    }
  }

  lemma {:induction false} SpacedIsFresh(start: LockState, steps: seq<Step>, n: nat, end: nat, staleAfter: nat, i: nat)
    requires n <= |steps| && TimesRise(steps, end) && KeepsHolding(steps, n, i)
    requires In(After(start, steps[..n], staleAfter), i, Held) && BeatsSpaced(start, steps, n, end, staleAfter, i)
    ensures KeepsBeating(start, steps, n, staleAfter, i)
  {
    var beats := Beats(start, steps, staleAfter, i);
    assert steps[..|steps|] == steps;
    forall m | n <= m < |steps| ensures Moves(beats, steps, m, i) {
      HeldMoves(start, steps, n, m, staleAfter, i);
    }
    AttemptsFindFresh(steps, beats, n, end, staleAfter, i);
  }

  /** On a monotone positive clock, a live holder whose heartbeats are never more than `staleAfter` apart is never
      reclaimed, whatever anyone else does. */
  lemma {:induction false} LiveHolderKept(start: LockState, steps: seq<Step>, n: nat, end: nat, staleAfter: nat, i: nat)
    requires n <= |steps| && PositiveTimes(steps) && TimesRise(steps, end)
    requires start.generation + |After(start, steps[..n], staleAfter).guards| < GENERATIONS
    requires In(After(start, steps[..n], staleAfter), i, Held) && Current(After(start, steps[..n], staleAfter), i)
    requires KeepsHolding(steps, n, i) && BeatsSpaced(start, steps, n, end, staleAfter, i)
    ensures In(After(start, steps, staleAfter), i, Held) && Current(After(start, steps, staleAfter), i)
    ensures |After(start, steps, staleAfter).guards| == |After(start, steps[..n], staleAfter).guards|
  {
    SpacedIsFresh(start, steps, n, end, staleAfter, i);
    FreshHolderKept(start, steps, n, staleAfter, i);
  }
}
