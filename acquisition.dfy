/** The acquisition polling loop of the digitizer driver (`DT5742::Read`).

    The loop polls the acquisition status register (address 0x8104), counts the polls
    that found the event buffer full, drains one event into the output file whenever an
    event is ready, and keeps a two-state "in spill" flag: the spill is over once more
    than one second has passed since the last drained event (or since the loop started).
    It stops only when the target number of events has been recorded and no spill is in
    progress.

    Everything the loop gets from outside is an input here: for every pass, the status
    word the register read left behind, the bytes the data read delivers and the two
    clock readings. The loop is bounded by the number of passes supplied. */
module Acquisition {
  import opened Vendor

  /** The bytes one data read delivers and one file write appends. */
  type Buffer = seq<bv8>

  /** Clock ticks per second: the steady clock is read in nanoseconds. */
  const TicksPerSecond: int := 1_000_000_000

  /** The three meaningful bits of the acquisition status register. */
  datatype Status = Status(running: bool, ready: bool, bufferFull: bool)

  /** Bit 2 is "running", bit 3 "event ready", bit 4 "buffer full". */
  function DecodeStatus(reg: Word): (s: Status)
    ensures s.running <==> reg & 0x4 != 0
    ensures s.ready <==> reg & 0x8 != 0
    ensures s.bufferFull <==> reg & 0x10 != 0
  {
    Status((reg >> 2) & 1 == 1, (reg >> 3) & 1 == 1, (reg >> 4) & 1 == 1)
  }

  /** The status word with only the three decoded bits set. */
  function EncodeStatus(s: Status): Word
  {
    (if s.running then 0x4 else 0) | (if s.ready then 0x8 else 0) | (if s.bufferFull then 0x10 else 0)
  }

  /** Decoding reads bits 2-4 and nothing else: it inverts encoding, and a word decodes
      as its bits 2-4 alone do. */
  lemma StatusBits(s: Status, reg: Word)
    ensures DecodeStatus(EncodeStatus(s)) == s
    ensures DecodeStatus(reg) == DecodeStatus(reg & 0x1C)
    ensures EncodeStatus(DecodeStatus(reg)) == reg & 0x1C
  {
  }

  /** The outside world's part in one pass of the loop: the status word read, the
      buffer a data read returns (consulted only when an event is ready), the clock when
      that event is drained (likewise) and the clock when the spill state is decided. */
  datatype Poll = Poll(status: Word, data: Buffer, drainTime: int, checkTime: int)

  predicate Ready(p: Poll)
  {
    DecodeStatus(p.status).ready
  }

  predicate Full(p: Poll)
  {
    DecodeStatus(p.status).bufferFull
  }

  /** The loop's variables: the four counters, the spill flag, the time of the last
      drain, and the records written to the output file so far. */
  datatype LoopState = LoopState(
    recEvents: nat, noReading: nat, atFull: nat, iterations: nat,
    inSpill: bool, eventStart: int, out: seq<Buffer>)

  /** The state before the first pass: nothing counted, not in a spill, the output
      file truncated, the idle clock started at `t0`. */
  function Start(t0: int): LoopState
  {
    LoopState(0, 0, 0, 0, false, t0, [])
  }

  /** The loop condition. */
  predicate Continues(run: int, s: LoopState)
  {
    s.recEvents < run || s.inSpill
  }

  /** A spill is still active when at most one second has passed since `eventStart`. */
  predicate SpillActive(eventStart: int, now: int)
  {
    !(now - eventStart > TicksPerSecond)
  }

  /** One pass of the loop. It counts one iteration, and one buffer-full poll exactly
      when the buffer is full. A pass that finds an event ready counts it and appends
      the pass's buffer to the output; any other pass counts a pass with no reading and
      leaves the output as it was. */
  function Step(s: LoopState, p: Poll): (s': LoopState)
    ensures s'.iterations == s.iterations + 1
    ensures s'.atFull == s.atFull + (if Full(p) then 1 else 0)
    ensures Ready(p) ==>
              s'.recEvents == s.recEvents + 1 && s'.noReading == s.noReading
              && s'.out == s.out + [p.data]
    ensures !Ready(p) ==>
              s'.recEvents == s.recEvents && s'.noReading == s.noReading + 1
              && s'.out == s.out
  {
    var st := DecodeStatus(p.status);
    var atFull := if st.bufferFull then s.atFull + 1 else s.atFull;
    if st.ready then
      LoopState(s.recEvents + 1, s.noReading, atFull, s.iterations + 1,
                SpillActive(p.drainTime, p.checkTime), p.drainTime, s.out + [p.data])
    else
      LoopState(s.recEvents, s.noReading + 1, atFull, s.iterations + 1,
                SpillActive(s.eventStart, p.checkTime), s.eventStart, s.out)
  }

  /** The state after the passes `ps`, the loop condition aside. */
  function Replay(t0: int, ps: seq<Poll>): LoopState
  {
    if ps == [] then Start(t0) else Step(Replay(t0, ps[..|ps| - 1]), ps[|ps| - 1])
  }

  /** The state after the first `n` passes of `ps`, written over an index so that the
      loop can follow it without slicing. */
  function ReplayN(t0: int, ps: seq<Poll>, n: nat): LoopState
    requires n <= |ps|
  {
    if n == 0 then Start(t0) else Step(ReplayN(t0, ps, n - 1), ps[n - 1])
  }

  /** `ReplayN` is `Replay` of the prefix. */
  lemma {:induction false} ReplayNPrefix(t0: int, ps: seq<Poll>, n: nat)
    requires n <= |ps|
    ensures ReplayN(t0, ps, n) == Replay(t0, ps[..n])
  {
    if n > 0 {
      ReplayNPrefix(t0, ps, n - 1);
      assert ps[..n][..n - 1] == ps[..n - 1];
    }
  }

  /** The loop condition held before each of the first `n` passes of `ps`. */
  predicate RanThrough(run: int, t0: int, ps: seq<Poll>, n: nat)
    requires n <= |ps|
  {
    n == 0 || (RanThrough(run, t0, ps, n - 1) && Continues(run, ReplayN(t0, ps, n - 1)))
  }

  /** `RanThrough` says that the loop condition held after every shorter prefix. */
  lemma {:induction false} RanThroughPrefixes(run: int, t0: int, ps: seq<Poll>, n: nat)
    requires n <= |ps| && RanThrough(run, t0, ps, n)
    ensures forall k :: 0 <= k < n ==> Continues(run, Replay(t0, ps[..k]))
  {
    if n > 0 {
      RanThroughPrefixes(run, t0, ps, n - 1);
      ReplayNPrefix(t0, ps, n - 1);
    }
  }

  /** The number of passes in `ps` that found an event ready. */
  function CountReady(ps: seq<Poll>): (n: nat)
    ensures n <= |ps|
  {
    if ps == [] then 0
    else CountReady(ps[..|ps| - 1]) + (if Ready(ps[|ps| - 1]) then 1 else 0)
  }

  /** The number of passes in `ps` that found the buffer full. */
  function CountFull(ps: seq<Poll>): (n: nat)
    ensures n <= |ps|
  {
    if ps == [] then 0
    else CountFull(ps[..|ps| - 1]) + (if Full(ps[|ps| - 1]) then 1 else 0)
  }

  /** The buffers of the passes in `ps` that found an event ready, in poll order. */
  function ReadyData(ps: seq<Poll>): seq<Buffer>
  {
    if ps == [] then []
    else ReadyData(ps[..|ps| - 1]) + (if Ready(ps[|ps| - 1]) then [ps[|ps| - 1].data] else [])
  }

  /** The drain time of the last ready pass in `ps`, or `t0` if there is none. */
  function LastDrain(t0: int, ps: seq<Poll>): int
  {
    if ps == [] then t0
    else if Ready(ps[|ps| - 1]) then ps[|ps| - 1].drainTime
    else LastDrain(t0, ps[..|ps| - 1])
  }

  /** After the passes `ps` the counters are what the passes dictate: one iteration per
      pass, one recorded event per ready pass, one no-reading count per other pass, one
      buffer-full count per pass that saw the buffer full. */
  lemma {:induction false} ReplayCounters(t0: int, ps: seq<Poll>)
    ensures Replay(t0, ps).iterations == |ps|
    ensures Replay(t0, ps).recEvents == CountReady(ps)
    ensures Replay(t0, ps).noReading == |ps| - CountReady(ps)
    ensures Replay(t0, ps).atFull == CountFull(ps)
  {
    if ps != [] {
      ReplayCounters(t0, ps[..|ps| - 1]);
    }
  }

  /** The statistics check after the loop never fires: every pass is counted either as
      a recorded event or as a pass with no reading, and no more passes saw the buffer
      full than there were passes. */
  lemma CounterInvariant(t0: int, ps: seq<Poll>)
    ensures Replay(t0, ps).iterations == Replay(t0, ps).recEvents + Replay(t0, ps).noReading
    ensures Replay(t0, ps).atFull <= Replay(t0, ps).iterations
  {
    ReplayCounters(t0, ps);
  }

  /** The output file holds exactly one record per ready pass, in poll order. */
  lemma {:induction false} OutputIsReadyData(t0: int, ps: seq<Poll>)
    ensures Replay(t0, ps).out == ReadyData(ps)
    ensures |ReadyData(ps)| == CountReady(ps)
  {
    if ps != [] {
      OutputIsReadyData(t0, ps[..|ps| - 1]);
    }
  }

  /** The output file is only appended to: what was written after the first `k` passes
      is a prefix of what is written after all of them. */
  lemma {:induction false} OutputOnlyGrows(t0: int, ps: seq<Poll>, k: nat)
    requires k <= |ps|
    ensures Replay(t0, ps[..k]).out <= Replay(t0, ps).out
  {
    if k < |ps| {
      OutputOnlyGrows(t0, ps[..|ps| - 1], k);
      assert ps[..|ps| - 1][..k] == ps[..k];
    } else {
      assert ps[..k] == ps;
    }
  }

  /** The spill flag: false before any pass; after a pass, false exactly when more than
      one second separates that pass's clock check from the last drain (or from the
      start, if nothing was drained yet). */
  lemma {:induction false} SpillState(t0: int, ps: seq<Poll>)
    ensures Replay(t0, ps).eventStart == LastDrain(t0, ps)
    ensures ps == [] ==> !Replay(t0, ps).inSpill
    ensures ps != [] ==>
              Replay(t0, ps).inSpill == SpillActive(LastDrain(t0, ps), ps[|ps| - 1].checkTime)
  {
    if ps != [] {
      SpillState(t0, ps[..|ps| - 1]);
    }
  }

  /** With a clock that does not run backwards, a spill that has ended stays ended until
      some pass finds an event ready. */
  lemma IdleUntilNextReady(t0: int, ps: seq<Poll>, p: Poll)
    requires ps != [] && !Replay(t0, ps).inSpill
    requires ps[|ps| - 1].checkTime <= p.checkTime
    requires !Ready(p)
    ensures !Replay(t0, ps + [p]).inSpill
  {
    assert (ps + [p])[..|ps|] == ps;
  }

  /** `DT5742::Read(run)`: poll until `run` events are recorded and no spill is in
      progress, or until the supplied passes run out. The result is the state after the
      passes taken; the loop condition held before each of them, and it fails at the end
      unless the passes ran out. */
  method Read(run: int, t0: int, polls: seq<Poll>) returns (s: LoopState)
    ensures s.iterations <= |polls|
    ensures s == Replay(t0, polls[..s.iterations])
    ensures forall k :: 0 <= k < s.iterations ==> Continues(run, Replay(t0, polls[..k]))
    ensures s.iterations < |polls| ==> s.recEvents >= run && !s.inSpill
    ensures s.iterations == s.recEvents + s.noReading
    ensures s.recEvents == CountReady(polls[..s.iterations])
    ensures s.atFull == CountFull(polls[..s.iterations]) <= s.iterations
    ensures s.out == ReadyData(polls[..s.iterations]) && |s.out| == s.recEvents
    ensures run <= 0 ==> s.iterations == 0
  {
    var nRecEvents: nat, nTimesNoReading: nat, nTimesAtFull: nat, nIterations: nat := 0, 0, 0, 0;
    var inSpill := false;
    var eventStart := t0;
    var fout: seq<Buffer> := [];
    while (nRecEvents < run || inSpill) && nIterations < |polls|
      invariant nIterations <= |polls|
      invariant LoopState(nRecEvents, nTimesNoReading, nTimesAtFull, nIterations,
                          inSpill, eventStart, fout) == ReplayN(t0, polls, nIterations)
      invariant RanThrough(run, t0, polls, nIterations)
    {
      var p := polls[nIterations];
      var st := DecodeStatus(p.status);
      if st.bufferFull {
        nTimesAtFull := nTimesAtFull + 1;
      }
      if st.ready {
        fout := fout + [p.data];
        nRecEvents := nRecEvents + 1;
        eventStart := p.drainTime;
      } else {
        nTimesNoReading := nTimesNoReading + 1;
      }
      var eventStop := p.checkTime;
      if eventStop - eventStart > TicksPerSecond {
        inSpill := false;
      } else {
        inSpill := true;
      }
      nIterations := nIterations + 1;
    }
    s := LoopState(nRecEvents, nTimesNoReading, nTimesAtFull, nIterations,
                   inSpill, eventStart, fout);
    ReplayNPrefix(t0, polls, nIterations);
    RanThroughPrefixes(run, t0, polls, nIterations);
    CounterInvariant(t0, polls[..nIterations]);
    OutputIsReadyData(t0, polls[..nIterations]);
    ReplayCounters(t0, polls[..nIterations]);
    if nIterations > 0 {
      assert polls[..0] == [];
    }
  }

  /** A run with a target of three events: three events arrive close together, then a
      pass finds nothing more than one second after the last of them. The loop goes on
      after the third event, because the spill is still active, and stops at the idle
      pass with exactly the three buffers written in order; the fifth pass is never
      taken. */
  method SpillScenario() returns (s: LoopState)
    ensures s.iterations == 4 && s.recEvents == 3 && s.noReading == 1
    ensures s.out == [[1], [2], [3]] && !s.inSpill
  {
    var polls := [Poll(0x8, [1], 10, 11), Poll(0x8, [2], 20, 21), Poll(0x8, [3], 30, 31),
                  Poll(0x0, [], 0, 31 + 2 * TicksPerSecond),
                  Poll(0x8, [9], 40 + 2 * TicksPerSecond, 41 + 2 * TicksPerSecond)];
    s := Read(3, 0, polls);
    assert Ready(polls[0]) && Ready(polls[1]) && Ready(polls[2]) && !Ready(polls[3]);
    assert !Full(polls[0]) && !Full(polls[1]) && !Full(polls[2]) && !Full(polls[3]);
    assert polls[..0] == [];
    assert polls[..1][..0] == polls[..0];
    assert polls[..2][..1] == polls[..1];
    assert polls[..3][..2] == polls[..2];
    assert polls[..4][..3] == polls[..3];
    assert Replay(0, polls[..1]) == LoopState(1, 0, 0, 1, true, 10, [[1]]);
    assert Replay(0, polls[..2]) == LoopState(2, 0, 0, 2, true, 20, [[1], [2]]);
    assert Replay(0, polls[..3]) == LoopState(3, 0, 0, 3, true, 30, [[1], [2], [3]]);
    assert Replay(0, polls[..4]) == LoopState(3, 1, 0, 4, false, 30, [[1], [2], [3]]);
  }
}
