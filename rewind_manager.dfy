/** The rewind manager: a bounded list of machine snapshots, appended once
    per frame, thinned when full, and read back to rewind the machine.
    The state manager, the TIA and the frame buffer it talks to are
    parameters here: a success flag and blob for the snapshot it is handed,
    the machine's current cycle, frame and scanline counts, and the index of
    the snapshot it would load. */
module Rewind {
  import opened MachineTypes
  import opened RewindStates

  // ---------------------------------------------------------------------
  // getMessage

  const CYCLES_PER_SCANLINE: nat := 76
  const SCANLINES_PER_FRAME: nat := 262
  const FRAMES_PER_SECOND: nat := 60

  datatype TimeUnit = Cycles | Scanlines | Frames | Seconds | Minutes

  function UnitRank(u: TimeUnit): nat
  {
    match u
    case Cycles => 0
    case Scanlines => 1
    case Frames => 2
    case Seconds => 3
    case Minutes => 4
  }

  function UnitName(u: TimeUnit): string
  {
    match u
    case Cycles => "cycle(s)"
    case Scanlines => "scanline(s)"
    case Frames => "frame(s)"
    case Seconds => "second(s)"
    case Minutes => "minute(s)"
  }

  /** The unit `getMessage` picks for a cycle difference. The scanline
      threshold is `76 * scanlinesLastFrame()`, a 32-bit product. */
  function MessageUnit(diff: u64, scanlines: u32): TimeUnit
  {
    if diff < CYCLES_PER_SCANLINE then Cycles
    else if diff < (CYCLES_PER_SCANLINE * scanlines) % TWO_32 then Scanlines
    else if diff < 76 * 262 * 60 then Frames
    else if diff < 76 * 262 * 60 * 60 then Seconds
    else Minutes
  }

  /** A larger distance never gets a finer unit, and the two ends of the
      scale are fixed thresholds: below one scanline of cycles, and one
      minute of frames and beyond. */
  lemma MessageUnitMonotone(d1: u64, d2: u64, scanlines: u32)
    requires d1 <= d2
    ensures UnitRank(MessageUnit(d1, scanlines)) <= UnitRank(MessageUnit(d2, scanlines))
    ensures MessageUnit(d1, scanlines) == Cycles <==> d1 < CYCLES_PER_SCANLINE
    ensures MessageUnit(d2, scanlines) == Minutes <==>
              d2 >= CYCLES_PER_SCANLINE && d2 >= (CYCLES_PER_SCANLINE * scanlines) % TWO_32
              && d2 >= 76 * 262 * 60 * 60
  {
  }

  /** The number printed before the unit, as the source computes it. */
  function AmountAsWritten(diff: u64, u: TimeUnit): nat
  {
    match u
    case Cycles => diff
    case Scanlines => diff / 76
    case Frames => diff / 76 / 262 / 60
    case Seconds => diff / 76 / 262 / 60 / 60
    case Minutes => diff / 76 / 262 / 60 / 60 / 60
  }

  /** The number the unit names: whole frames, seconds or minutes. */
  function AmountIntended(diff: u64, u: TimeUnit): nat
  {
    match u
    case Cycles => diff
    case Scanlines => diff / 76
    case Frames => diff / 76 / 262
    case Seconds => diff / 76 / 262 / 60
    case Minutes => diff / 76 / 262 / 60 / 60
  }

  /** Cycles in one of the unit: one scanline is 76 cycles, one frame 262
      scanlines, one second 60 frames, one minute 60 seconds. */
  function UnitLength(u: TimeUnit): nat
  {
    match u
    case Cycles => 1
    case Scanlines => 76
    case Frames => 76 * 262
    case Seconds => 76 * 262 * 60
    case Minutes => 76 * 262 * 60 * 60
  }

  /** The intended amount is the number of whole units in the distance. */
  lemma AmountIntendedCountsUnits(diff: u64, u: TimeUnit)
    ensures AmountIntended(diff, u) * UnitLength(u) <= diff
    ensures diff < (AmountIntended(diff, u) + 1) * UnitLength(u)
  {
    var n := AmountIntended(diff, u);
    var q1 := diff / 76;
    assert 76 * q1 <= diff < 76 * q1 + 76;
    match u
    case Cycles =>
    case Scanlines =>
    case Frames =>
      assert 262 * n <= q1 < 262 * n + 262;
      assert n * UnitLength(u) == n * 19912;
    case Seconds =>
      var q2 := q1 / 262;
      assert 262 * q2 <= q1 < 262 * q2 + 262;
      assert 60 * n <= q2 < 60 * n + 60;
      assert n * UnitLength(u) == n * 1194720;
    case Minutes =>
      var q2 := q1 / 262;
      var q3 := q2 / 60;
      assert 262 * q2 <= q1 < 262 * q2 + 262;
      assert 60 * q3 <= q2 < 60 * q3 + 60;
      assert 60 * n <= q3 < 60 * n + 60;
      assert n * UnitLength(u) == n * 71683200;
  }

  /** Decimal digits of `n`, as `operator<<` prints an unsigned integer. */
  function Decimal(n: nat): (r: string)
    ensures |r| >= 1
    ensures forall i :: 0 <= i < |r| ==> '0' <= r[i] <= '9'
  {
    if n < 10 then ["0123456789"[n]]
    else Decimal(n / 10) + ["0123456789"[n % 10]]
  }

  function Render(amount: nat, u: TimeUnit): string
  {
    "Rewind " + Decimal(amount) + " " + UnitName(u)
  }

  /** `getMessage` as written. The difference is unsigned, so its `diff < 0`
      branch is dead and the message always says "Rewind". */
  function GetMessage(now: u64, cyclesTo: u64, scanlines: u32): (r: string)
    ensures |r| > 7 && r[..7] == "Rewind "
  {
    var diff := Sub64(now, cyclesTo);
    var u := MessageUnit(diff, scanlines);
    Render(AmountAsWritten(diff, u), u)
  }

  /** `getMessage` with each coarse unit divided by its own length. */
  function GetMessageIntended(now: u64, cyclesTo: u64, scanlines: u32): (r: string)
    ensures |r| > 7 && r[..7] == "Rewind "
  {
    var diff := Sub64(now, cyclesTo);
    var u := MessageUnit(diff, scanlines);
    Render(AmountIntended(diff, u), u)
  }

  /** As written, every distance reported in frames or in seconds prints 0. */
  lemma AsWrittenFramesAndSecondsAreZero(diff: u64, scanlines: u32)
    requires MessageUnit(diff, scanlines) in {Frames, Seconds}
    ensures AmountAsWritten(diff, MessageUnit(diff, scanlines)) == 0
  {
    var u := MessageUnit(diff, scanlines);
    assert diff < 76 * 262 * 60 * 60;
    if u == Frames {
      assert diff / 76 < 262 * 60 by { DivBelow(diff, 76, 262 * 60); }
      assert diff / 76 / 262 < 60 by { DivBelow(diff / 76, 262, 60); }
    } else {
      assert diff / 76 < 262 * 60 * 60 by { DivBelow(diff, 76, 262 * 60 * 60); }
      assert diff / 76 / 262 < 60 * 60 by { DivBelow(diff / 76, 262, 60 * 60); }
      assert diff / 76 / 262 / 60 < 60 by { DivBelow(diff / 76 / 262, 60, 60); }
    }
  }

  /** Two frames behind, with a 262-line frame: the message as written
      says 0 frames; the intended one says 2. */
  lemma TwoFramesBehind()
    ensures GetMessage(2 * 76 * 262, 0, 262) == "Rewind 0 frame(s)"
    ensures GetMessageIntended(2 * 76 * 262, 0, 262) == "Rewind 2 frame(s)"
  {
    assert MessageUnit(2 * 76 * 262, 262) == Frames;
  }

  /** With the intended scaling, a distance reported in frames is under a
      second, one in seconds is between 1 and 59, and one in minutes is at
      least 1. */
  lemma IntendedAmountsInRange(diff: u64, scanlines: u32)
    ensures var u := MessageUnit(diff, scanlines);
      (u == Frames ==> AmountIntended(diff, u) < 60)
      && (u == Seconds ==> 1 <= AmountIntended(diff, u) < 60)
      && (u == Minutes ==> AmountIntended(diff, u) >= 1)
  {
    var u := MessageUnit(diff, scanlines);
    if u == Frames {
      DivBelow(diff, 76, 262 * 60);
      DivBelow(diff / 76, 262, 60);
    } else if u == Seconds {
      DivBelow(diff, 76, 262 * 60 * 60);
      DivBelow(diff / 76, 262, 60 * 60);
      DivBelow(diff / 76 / 262, 60, 60);
      assert diff / 76 >= 262 * 60;
      assert diff / 76 / 262 >= 60;
    } else if u == Minutes {
      assert diff / 76 >= 262 * 60 * 60;
      assert diff / 76 / 262 >= 60 * 60;
      assert diff / 76 / 262 / 60 >= 60;
    }
  }

  lemma DivBelow(x: nat, d: nat, n: nat)
    requires d > 0 && x < d * n
    ensures x / d < n
  {
  }

  // ---------------------------------------------------------------------
  // The manager

  /** Cycle distance a coarse rewind must go back: three quarters of
      FRAME_CYCLES. */
  const COARSE_DISTANCE: nat := FRAME_CYCLES * 3 / 4

  /** `now - s.cycles` as the source's unsigned 64-bit test computes it. */
  predicate FarEnough(now: u64, s: Snapshot)
  {
    Sub64(now, s.cycles) >= COARSE_DISTANCE
  }

  /** The list a successful `addState` leaves behind: entries after the
      cursor dropped, the list compressed when it is full, and the new
      snapshot appended. */
  function Added(L: seq<Snapshot>, cursor: nat, s: Snapshot): seq<Snapshot>
    requires cursor <= |L| <= MAX_SIZE
  {
    var kept := L[..cursor];
    (if |kept| == MAX_SIZE then Compressed(kept) else kept) + [s]
  }

  /** Adding a snapshot keeps the list within MAX_SIZE, puts the new snapshot
      last, and keeps the oldest retained snapshot and the SINGLE_STEPS
      newest ones before the new one, in order. */
  lemma AddedWithinCapacity(L: seq<Snapshot>, cursor: nat, s: Snapshot)
    requires cursor <= |L| <= MAX_SIZE
    ensures var A := Added(L, cursor, s);
      |A| <= MAX_SIZE
      && A[|A| - 1] == s
      && IsSubsequence(A[..|A| - 1], L)
      && (cursor > 0 ==> A[0] == L[0])
      && (cursor >= SINGLE_STEPS ==>
            A[|A| - 1 - SINGLE_STEPS..|A| - 1] == L[cursor - SINGLE_STEPS..cursor])
  {
    var kept := L[..cursor];
    var A := Added(L, cursor, s);
    assert A[..|A| - 1] == if |kept| == MAX_SIZE then Compressed(kept) else kept;
    assert IsSubsequence(kept, L) by { PrefixSubsequence(L, cursor); }
    if |kept| == MAX_SIZE {
      CompressedFreesSlot(kept);
      CompressedKeeps(kept);
      SubsequenceTrans(Compressed(kept), kept, L);
    }
  }

  lemma {:induction false} PrefixSubsequence(L: seq<Snapshot>, n: nat)
    requires n <= |L|
    ensures IsSubsequence(L[..n], L)
    decreases n
  {
    if n == 0 {
    } else {
      PrefixSubsequence(L[1..], n - 1);
      assert L[..n][1..] == L[1..][..n - 1];
    }
  }

  class RewindManager {
    /** myStateList, oldest first. */
    var states: seq<Snapshot>
    /** myCurrentIt, as a position in `states`; `|states|` is `end()`. */
    var current: nat
    /** myFrameLst: frame differences written by `debugList`. */
    const frameList: array<u64>
    /** myStateCount, a 32-bit counter. */
    var stateCount: u32
    /** myLastFrames. */
    var lastFrames: u64

    ghost predicate Valid()
      reads this
    {
      frameList.Length == MAX_SIZE && |states| <= MAX_SIZE && current <= |states|
    }

    /** The cursor is at `end()`: the live machine, past every snapshot. */
    ghost predicate AtPresent()
      reads this
    {
      current == |states|
    }

    predicate Empty()
      reads this
    {
      |states| == 0
    }

    constructor ()
      ensures Valid() && AtPresent() && Empty()
      ensures stateCount == 0 && lastFrames == 0
      ensures fresh(frameList)
    {
      states := [];
      current := 0;
      frameList := new u64[MAX_SIZE];
      stateCount := 0;
      lastFrames := 0;
    }

    /** Empties the list. The cursor was `end()` and `end()` survives
        `clear()`, so it still marks one past the last snapshot. */
    method Clear()
      requires Valid()
      modifies this`states, this`current
      ensures Valid() && AtPresent() && Empty()
      ensures stateCount == old(stateCount) && lastFrames == old(lastFrames)
    {
      states := [];
      current := 0;
    }

    /** `addState`: `saved` is whether the state manager and the TIA managed
        to serialize the machine into `blob`; `cycles` and `frames` are the
        TIA's counters. */
    method AddState(message: string, saved: bool, blob: seq<u8>, cycles: u64, frames: u64)
      returns (ok: bool)
      requires Valid()
      modifies this, frameList
      ensures Valid() && ok == saved
      ensures !saved ==> states == old(states) && current == old(current)
                         && stateCount == old(stateCount) && lastFrames == old(lastFrames)
                         && frameList[..] == old(frameList[..])
      ensures saved ==> states == Added(old(states), old(current), Snapshot(blob, cycles, frames))
                        && AtPresent()
                        && stateCount == (old(stateCount) + 1) % TWO_32
                        && lastFrames == frames
                        && frameList[..|states|] == FrameDeltas(states)
    {
      if !saved {
        return false;
      }
      // Adding a snapshot drops every snapshot after the cursor.
      while current != |states|
        invariant current == old(current) <= |states| <= old(|states|)
        invariant states == old(states)[..|states|]
        invariant stateCount == old(stateCount)
        decreases |states|
      {
        states := states[..|states| - 1];
      }
      assert states == old(states)[..old(current)];
      if |states| == MAX_SIZE {
        CompressStates();
      }
      stateCount := (stateCount + 1) % TWO_32;
      states := states + [Snapshot(blob, cycles, frames)];
      current := |states|;
      DebugList();
      lastFrames := frames;
      if stateCount % 250 == 0 {
        DebugList();
      }
      return true;
    }

    /** `compressStates`, the loop over a reverse iterator written with the
        reverse position `k` of `rit`. */
    method CompressStates()
      requires Valid() && AtPresent() && |states| > SINGLE_STEPS
      modifies this`states, this`current, frameList
      ensures Valid() && AtPresent()
      ensures states == Compressed(old(states))
      ensures frameList[..|states|] == FrameDeltas(states)
    {
      ghost var goal := ScanFrom(ScanState(states, SINGLE_STEPS, 0, 0));
      var k: nat := SINGLE_STEPS;
      var lastStep: u32 := 0;
      var stepCount: nat := 0;
      // do { ... } while (++rit != rend()): the first pass always runs.
      while k < |states|
        invariant |states| <= old(|states|)
        invariant ScanInv(ScanState(states, k, lastStep, stepCount))
        invariant ScanFrom(ScanState(states, k, lastStep, stepCount)) == goal
        decreases |states| - k
      {
        ghost var st := ScanState(states, k, lastStep, stepCount);
        // thisStep: cycles of prevRit minus cycles of rit, cut to 32 bits
        var thisStep := StepAt(states, k);
        if thisStep == lastStep {
          stepCount := stepCount + 1;
        } else {
          if stepCount >= MERGE_COUNT {
            // erase(ritErase.base()): the snapshot two newer than rit
            states := RemoveAt(states, |states| - k + 1);
            k := k - 1;
            stepCount := 2;
          } else {
            stepCount := 1;
          }
          lastStep := thisStep;
        }
        assert ScanState(states, k, lastStep, stepCount) == ScanBody(st);
        k := k + 1;
        ScanFromStep(st, ScanState(states, k, lastStep, stepCount));
      }
      if stepCount >= MERGE_COUNT || |states| == MAX_SIZE {
        // remove the second-oldest snapshot
        states := RemoveAt(states, 1);
      }
      CompressedSize(old(states));
      // the cursor is end(), which erasing does not move
      current := |states|;
      DebugList();
    }

    /** `debugList`: the frame difference of every snapshot to the one
        before it, into `frameList`. The source dereferences `begin()`,
        so the list must not be empty. */
    method DebugList()
      requires Valid() && |states| >= 1
      modifies frameList
      ensures frameList[..|states|] == FrameDeltas(states)
      ensures frameList[|states|..] == old(frameList[|states|..])
    {
      var last := states[0].frames;
      var i := 0;
      while i < |states|
        invariant 0 <= i <= |states|
        invariant last == states[if i == 0 then 0 else i - 1].frames
        invariant forall j :: 0 <= j < i ==> frameList[j] == FrameDelta(states, j)
        invariant forall j :: |states| <= j < MAX_SIZE ==> frameList[j] == old(frameList[j])
      {
        assert FrameDelta(states, i) == Sub64(states[i].frames, last);
        frameList[i] := Sub64(states[i].frames, last);
        last := states[i].frames;
        i := i + 1;
      }
    }

    /** `rewindState`: picks the snapshot to load (its index) and the message
        shown. `now` is the TIA's cycle count and `scanlines` its last frame's
        scanline count. The coarse search has no bound check, so a coarse
        rewind needs some snapshot at least COARSE_DISTANCE cycles back. */
    method RewindState(emulation: bool, now: u64, scanlines: u32)
      returns (ok: bool, selected: nat, message: string)
      requires Valid()
      requires emulation && |states| > 0 ==>
                 exists i :: 0 <= i < |states| && FarEnough(now, states[i])
      ensures ok <==> |states| > 0
      ensures ok ==> selected < |states|
                     && message == GetMessage(now, states[selected].cycles, scanlines)
      ensures ok && !emulation ==> selected == |states| - 1
      ensures ok && emulation ==>
                FarEnough(now, states[selected])
                && forall j :: selected < j < |states| ==> !FarEnough(now, states[j])
    {
      if |states| == 0 {
        return false, 0, "";
      }
      var r := 0;
      while emulation && !FarEnough(now, states[|states| - 1 - r])
        invariant 0 <= r < |states|
        invariant !emulation ==> r == 0
        invariant emulation ==> forall j :: |states| - 1 - r < j < |states| ==> !FarEnough(now, states[j])
        invariant emulation ==> exists i :: 0 <= i <= |states| - 1 - r && FarEnough(now, states[i])
        decreases |states| - r
      {
        r := r + 1;
      }
      selected := |states| - 1 - r;
      message := GetMessage(now, states[selected].cycles, scanlines);
      ok := true;
    }

    /** `unwindState`: a stub that only reports whether there is a list. */
    method UnwindState(emulation: bool) returns (ok: bool)
      requires Valid()
      ensures ok <==> !Empty()
    {
      ok := |states| > 0;
    }

    method RewindDebuggerState(now: u64, scanlines: u32)
      returns (ok: bool, selected: nat, message: string)
      requires Valid()
      ensures ok <==> |states| > 0
      ensures ok ==> selected == |states| - 1
                     && message == GetMessage(now, states[selected].cycles, scanlines)
    {
      ok, selected, message := RewindState(false, now, scanlines);
    }

    method RewindEmulationState(now: u64, scanlines: u32)
      returns (ok: bool, selected: nat, message: string)
      requires Valid()
      requires |states| > 0 ==> exists i :: 0 <= i < |states| && FarEnough(now, states[i])
      ensures ok <==> |states| > 0
      ensures ok ==> selected < |states| && FarEnough(now, states[selected])
                     && (forall j :: selected < j < |states| ==> !FarEnough(now, states[j]))
                     && message == GetMessage(now, states[selected].cycles, scanlines)
    {
      ok, selected, message := RewindState(true, now, scanlines);
    }

    method UnwindDebuggerState() returns (ok: bool)
      requires Valid()
      ensures ok <==> !Empty()
    {
      ok := UnwindState(false);
    }

    method UnwindEmulationState() returns (ok: bool)
      requires Valid()
      ensures ok <==> !Empty()
    {
      ok := UnwindState(true);
    }
  }
}
