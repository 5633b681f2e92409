/**
 The lock's on-disk record and the file that holds it: a 24-byte little-endian encoding, read with a fill loop,
 overwritten in place, and changed only by read-decide-write under the operating system's lock on the file.
 */
module LockRecord {
  import opened Keys

  type byte = n: nat | n < 256
  type u64 = n: nat | n < 0x1_0000_0000_0000_0000
  type u128 = n: nat | n < 0x1_0000_0000_0000_0000_0000_0000_0000_0000

  const RECORD_LEN := 24
  const FREE_HEARTBEAT: u128 := 0

  datatype LockState = LockState(generation: u64, heartbeat: u128) {
    /** Free for the taking: released or never held, or its holder silent for too long. */
    predicate IsFree(now: u128, staleAfter: nat) {
      heartbeat == FREE_HEARTBEAT || (if now >= heartbeat then now - heartbeat else 0) > staleAfter
    }
  }

  // ----- The four decisions, as functions of the record read -----

  /** The counter is a 64-bit one and wraps. */
  function NextGeneration(generation: u64): u64 {
    (generation + 1) % 0x1_0000_0000_0000_0000
  }

  function Acquired(state: LockState, now: u128): LockState {
    LockState(NextGeneration(state.generation), now)
  }

  function Refreshed(state: LockState, generation: u64, now: u128): LockState {
    if state.generation == generation then LockState(generation, now) else state
  }

  function MarkedFree(state: LockState, generation: u64): LockState {
    if state.generation == generation then LockState(generation, FREE_HEARTBEAT) else state
  }

  // ----- Encoding -----

  function Pow256(width: nat): nat {
    if width == 0 then 1 else 256 * Pow256(width - 1)
  }

  function ToLittleEndian(n: nat, width: nat): (bytes: seq<byte>)
    ensures |bytes| == width
  {
    if width == 0 then [] else [n % 256] + ToLittleEndian(n / 256, width - 1)
  }

  function FromLittleEndian(bytes: seq<byte>): nat {
    if bytes == [] then 0 else bytes[0] + 256 * FromLittleEndian(bytes[1..])
  }

  lemma {:induction false} LittleEndianRoundTrip(n: nat, width: nat)
    requires n < Pow256(width)
    ensures FromLittleEndian(ToLittleEndian(n, width)) == n
  {
    if width > 0 {
      LittleEndianRoundTrip(n / 256, width - 1);
    }
  }

  lemma {:induction false} LittleEndianBound(bytes: seq<byte>)
    ensures FromLittleEndian(bytes) < Pow256(|bytes|)
  {
    if bytes != [] {
      LittleEndianBound(bytes[1..]);
    }
  }

  lemma {:induction false} Widths()
    ensures Pow256(8) == 0x1_0000_0000_0000_0000
    ensures Pow256(16) == 0x1_0000_0000_0000_0000_0000_0000_0000_0000
  {
  }

  function Encode(state: LockState): (bytes: seq<byte>)
    ensures |bytes| == RECORD_LEN
  {
    ToLittleEndian(state.generation, 8) + ToLittleEndian(state.heartbeat, 16)
  }

  /** What a file's bytes say. A file shorter than a record reads as never held. */
  function Decode(bytes: seq<byte>): LockState {
    if |bytes| < RECORD_LEN then LockState(0, FREE_HEARTBEAT)
    else
      Widths();
      LittleEndianBound(bytes[..8]);
      LittleEndianBound(bytes[8..24]);
      LockState(FromLittleEndian(bytes[..8]), FromLittleEndian(bytes[8..24]))
  }

  /** Overwriting the record in place is read back exactly, whatever the file held before. */
  lemma {:induction false} RecordRoundTrip(state: LockState, rest: seq<byte>)
    ensures Decode(Encode(state) + rest) == state
  {
    var bytes := Encode(state) + rest;
    assert bytes[..8] == ToLittleEndian(state.generation, 8);
    assert bytes[8..24] == ToLittleEndian(state.heartbeat, 16);
    Widths();
    LittleEndianRoundTrip(state.generation, 8);
    LittleEndianRoundTrip(state.heartbeat, 16);
  }

  /** The byte at a place of a number, counted from the lowest. */
  function ByteOf(n: nat, place: nat): byte {
    if place == 0 then n % 256 else ByteOf(n / 256, place - 1)
  }

  lemma {:induction false} ByteAt(n: nat, width: nat, k: nat)
    requires k < width
    ensures ToLittleEndian(n, width)[k] == ByteOf(n, k)
  {
    if k > 0 {
      ByteAt(n / 256, width - 1, k - 1);
    }
  }

  /** Where the record keeps what: the generation in the first eight bytes, the heartbeat in the other sixteen, each
      with its lowest byte first. */
  lemma {:induction false} RecordLayout(state: LockState, k: nat)
    requires k < RECORD_LEN
    ensures Encode(state)[k] == if k < 8 then ByteOf(state.generation, k) else ByteOf(state.heartbeat, k - 8)
  {
    if k < 8 {
      ByteAt(state.generation, 8, k);
    } else {
      ByteAt(state.heartbeat, 16, k - 8);
    }
  }

  // ----- The file -----

  class LockFile {
    var bytes: seq<byte>

    /** The record the file holds. */
    function Record(): (state: LockState)
      reads this
    {
      Decode(bytes)
    }

    constructor ()
      ensures Record() == LockState(0, FREE_HEARTBEAT)
    {
      bytes := [];
    }

    /** One read call: some of what is left, as much as fits; nothing only at the end or without room. */
    method ReadSome(position: nat, room: nat) returns (count: nat)
      requires position <= |bytes|
      ensures count <= room && position + count <= |bytes|
      ensures count == 0 <==> room == 0 || position == |bytes|
    {
      var left := |bytes| - position;
      if room == 0 || left == 0 {
        return 0;
      }
      count :| 0 < count <= room && count <= left;
    }

    method ReadState() returns (state: LockState)
      ensures state == Record()
    {
      var filled := 0;
      var buffer: seq<byte> := [];
      while true
        invariant 0 <= filled <= RECORD_LEN && filled <= |bytes|
        invariant buffer == bytes[..filled]
        decreases RECORD_LEN - filled
      {
        var count := ReadSome(filled, RECORD_LEN - filled);
        if count == 0 {
          break;
        }
        buffer := buffer + bytes[filled..filled + count];
        filled := filled + count;
      }
      state := Decode(buffer);
      if filled == RECORD_LEN {
        assert buffer[..8] == bytes[..8] && buffer[8..24] == bytes[8..24];
      }
    }

    method WriteState(state: LockState)
      modifies this
      ensures Record() == state
    {
      var encoded := Encode(state);
      var rest := if |bytes| > RECORD_LEN then bytes[RECORD_LEN..] else [];
      RecordRoundTrip(state, rest);
      bytes := encoded + rest;
    }

    /** Whatever other processes write between two attempts. */
    method ChangedByOthers(found: seq<byte>)
      modifies this
      ensures bytes == found
    {
      bytes := found;
    }

    /** One attempt to take the lock. */
    method TryAcquire(now: u128, staleAfter: nat) returns (granted: Option<u64>)
      modifies this
      ensures granted.Some? <==> old(Record()).IsFree(now, staleAfter)
      ensures granted.Some? ==> Record() == Acquired(old(Record()), now) && granted.value == Record().generation
      ensures granted.None? ==> Record() == old(Record())
    {
      var state := ReadState();
      if !state.IsFree(now, staleAfter) {
        return None;
      }
      var generation := NextGeneration(state.generation);
      WriteState(LockState(generation, now));
      granted := Some(generation);
    }

    /** The heartbeat's write: only while the generation is still the recorded one. */
    method TouchIfCurrent(generation: u64, now: u128)
      modifies this
      ensures Record() == Refreshed(old(Record()), generation, now)
    {
      var state := ReadState();
      if state.generation == generation {
        WriteState(LockState(generation, now));
      }
    }

    /** The release's write, under the same condition. */
    method MarkFreeIfCurrent(generation: u64)
      modifies this
      ensures Record() == MarkedFree(old(Record()), generation)
    {
      var state := ReadState();
      if state.generation == generation {
        WriteState(LockState(generation, FREE_HEARTBEAT));
      }
    }

    /** The fencing check. */
    method IsCurrent(generation: u64) returns (current: bool)
      ensures current <==> Record().generation == generation
    {
      var state := ReadState();
      current := state.generation == generation;
    }
  }

  // ----- The acquire loop -----

  const MILLISECOND := 1_000_000

  /** How long a failed attempt sleeps, in nanoseconds: a quarter of the heartbeat interval, within 1 to 25 ms. */
  function PollInterval(heartbeatInterval: nat): (interval: nat)
    ensures MILLISECOND <= interval <= 25 * MILLISECOND
    ensures MILLISECOND <= heartbeatInterval / 4 <= 25 * MILLISECOND ==> interval == heartbeatInterval / 4
  {
    var candidate := heartbeatInterval / 4;
    if candidate < MILLISECOND then MILLISECOND
    else if candidate > 25 * MILLISECOND then 25 * MILLISECOND
    else candidate
  }

  /** What happens around the loop's n-th attempt: what other processes have made of the file by then and the wall
      clock under the lock, the monotonic clock when the deadline is checked, and again when the remaining time is
      computed. */
  datatype Probe = Probe(found: seq<byte>, now: u128, checkedAt: nat, sleptFrom: nat) {
    predicate Free(staleAfter: nat) {
      Decode(found).IsFree(now, staleAfter)
    }
  }

  function Slept(probe: Probe, poll: nat, deadline: nat): nat {
    var remaining := if deadline >= probe.sleptFrom then deadline - probe.sleptFrom else 0;
    if poll <= remaining then poll else remaining
  }

  /** The monotonic clock never runs backwards, and a sleep lasts at least as long as asked for. */
  ghost predicate ClockOk(start: nat, probes: nat -> Probe, poll: nat, deadline: nat) {
    && start <= probes(0).checkedAt
    && (forall n: nat :: probes(n).checkedAt <= probes(n).sleptFrom)
    && (forall n: nat :: probes(n).sleptFrom + Slept(probes(n), poll, deadline) <= probes(n + 1).checkedAt)
  }

  datatype AcquireResult = Granted(generation: u64) | Timeout

  /** Attempt to take the file's lock until it is free or the timeout has passed. The number of attempts is bounded, the
      first record found free is the one taken, only the last attempt can write, and giving up is never early. */
  method AcquireLoop(file: LockFile, start: nat, acquireTimeout: nat, heartbeatInterval: nat, staleAfter: nat,
      probes: nat -> Probe)
      returns (result: AcquireResult, attempts: nat)
    requires ClockOk(start, probes, PollInterval(heartbeatInterval), start + acquireTimeout)
    modifies file
    ensures 1 <= attempts <= acquireTimeout / PollInterval(heartbeatInterval) + 2
    ensures forall n :: 0 <= n < attempts - 1 ==>
              !probes(n).Free(staleAfter) && probes(n).checkedAt < start + acquireTimeout
    ensures var last := probes(attempts - 1);
            if last.Free(staleAfter) then
              file.Record() == Acquired(Decode(last.found), last.now) && result == Granted(file.Record().generation)
            else
              file.Record() == Decode(last.found) && result == Timeout && last.checkedAt >= start + acquireTimeout
  {
    var poll, deadline := PollInterval(heartbeatInterval), start + acquireTimeout;
    ghost var bound := Quotient(acquireTimeout, poll);
    attempts := 0;
    while true
      invariant forall n :: 0 <= n < attempts ==> !probes(n).Free(staleAfter) && probes(n).checkedAt < deadline
      invariant start + Polls(attempts, poll) <= probes(attempts).checkedAt || deadline <= probes(attempts).checkedAt
      invariant attempts <= bound + 1
      decreases bound + 1 - attempts
    {
      var probe := probes(attempts);
      attempts := attempts + 1;
      file.ChangedByOthers(probe.found);
      var granted := file.TryAcquire(probe.now, staleAfter);
      if granted.Some? {
        return Granted(granted.value), attempts;
      }
      if probe.checkedAt >= deadline {
        return Timeout, attempts;
      }
      PollsBound(attempts - 1, poll, acquireTimeout);
      assert probe == probes(attempts - 1);
      assert probe.sleptFrom + Slept(probe, poll, deadline) <= probes(attempts).checkedAt;
    }
  }

  /** The quotient under a name of its own, so that the loop is verified without reasoning about division. */
  ghost function Quotient(n: nat, d: nat): nat
    requires d > 0
  {
    n / d
  }

  /** The time a number of full sleeps takes. */
  ghost function Polls(count: nat, poll: nat): nat {
    if count == 0 then 0 else Polls(count - 1, poll) + poll
  }

  lemma {:induction false} PollsProduct(count: nat, poll: nat)
    ensures Polls(count, poll) == count * poll
  {
    if count > 0 {
      PollsProduct(count - 1, poll);
      assert (count - 1) * poll + poll == count * poll;
    }
  }

  lemma {:induction false} PollsMonotone(a: nat, b: nat, poll: nat)
    requires a <= b
    ensures Polls(a, poll) <= Polls(b, poll)
  {
    if a < b {
      PollsMonotone(a, b - 1, poll);
    }
  }

  /** Sleeps that fit below the timeout are no more than the timeout divided by the interval. */
  lemma {:induction false} PollsBound(count: nat, poll: nat, timeout: nat)
    requires poll > 0
    ensures Polls(count, poll) < timeout ==> count <= timeout / poll
  {
    var most := timeout / poll;
    PollsProduct(most, poll);
    assert timeout < most * poll + poll;
    if count > most {
      PollsMonotone(most + 1, count, poll);
    }
  }
}
