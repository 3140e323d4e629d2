/** The snapshot list of the rewind manager as a value: its constants, the
    record kept per snapshot, and a functional specification of the
    thinning pass `compressStates` together with what it guarantees. */
module RewindStates {
  import opened MachineTypes

  /** Cycles of one second of 60 Hz frames: 76 cycles per scanline, 262
      scanlines per frame, 60 frames. */
  const FRAME_CYCLES: nat := 76 * 262 * 60
  /** Number of newest snapshots that are never thinned. */
  const SINGLE_STEPS: nat := 60
  /** Number of guaranteed ~60-frame rewinds. */
  const SECOND_STEPS: nat := 10
  /** Length of a run of equal steps at which one snapshot is dropped. */
  const MERGE_COUNT: nat := 4
  /** Capacity of the snapshot list. */
  const MAX_SIZE: nat := SINGLE_STEPS + (SECOND_STEPS - MERGE_COUNT) + 46

  lemma Constants()
    ensures FRAME_CYCLES == 1194720
    ensures MAX_SIZE == 112
    ensures SINGLE_STEPS + MERGE_COUNT < MAX_SIZE
  {
  }

  /** One snapshot (the source's `RewindState` record): the serialized
      machine and display state, and the machine's cycle and frame counters
      when it was taken. */
  datatype Snapshot = Snapshot(data: seq<u8>, cycles: u64, frames: u64)

  // ---------------------------------------------------------------------
  // Subsequences: what survives a series of erasures, in its order.

  /** `a` is `b` with some elements left out: the elements of `a` can be
      matched, in order, to elements of `b` (greedily, from the front). */
  ghost predicate IsSubsequence<T>(a: seq<T>, b: seq<T>)
    decreases |b|
  {
    |a| <= |b|
    && (|a| == 0
        || (a[0] == b[0] && IsSubsequence(a[1..], b[1..]))
        || (a[0] != b[0] && IsSubsequence(a, b[1..])))
  }

  /** `L` without its element at position `i` (a `std::list::erase`). */
  function RemoveAt<T>(L: seq<T>, i: nat): (r: seq<T>)
    requires i < |L|
    ensures |r| == |L| - 1
    ensures forall j :: 0 <= j < i ==> r[j] == L[j]
    ensures forall j :: i <= j < |r| ==> r[j] == L[j + 1]
  {
    L[..i] + L[i + 1..]
  }

  lemma {:induction false} SubsequenceRefl<T>(a: seq<T>)
    ensures IsSubsequence(a, a)
    decreases |a|
  {
    if |a| > 0 {
      SubsequenceRefl(a[1..]);
    }
  }

  lemma {:induction false} SubsequenceDropHead<T>(a: seq<T>, b: seq<T>)
    requires |a| > 0 && IsSubsequence(a, b)
    ensures IsSubsequence(a[1..], b)
    decreases |b|
  {
    if |a| > 1 {
      if a[0] == b[0] {
        SubsequenceDropHead(a[1..], b[1..]);
        assert a[1..][1..] == a[2..];
        if a[1] != b[0] {
          assert IsSubsequence(a[1..], b[1..]);
        } else {
          assert IsSubsequence(a[2..], b[1..]);
        }
      } else {
        SubsequenceDropHead(a, b[1..]);
        if a[1] == b[0] {
          SubsequenceDropHead(a[1..], b[1..]);
          assert a[1..][1..] == a[2..];
        }
      }
    }
  }

  lemma {:induction false} RemoveAtSubsequence<T>(L: seq<T>, i: nat)
    requires i < |L|
    ensures IsSubsequence(RemoveAt(L, i), L)
    decreases i
  {
    var r := RemoveAt(L, i);
    if i == 0 {
      assert r == L[1..];
      SubsequenceRefl(L[1..]);
      if |r| > 0 && r[0] == L[0] {
        SubsequenceDropHead(r, L[1..]);
      }
    } else {
      RemoveAtSubsequence(L[1..], i - 1);
      assert RemoveAt(L[1..], i - 1) == r[1..];
    }
  }

  lemma {:induction false} SubsequenceTrans<T>(a: seq<T>, b: seq<T>, c: seq<T>)
    requires IsSubsequence(a, b) && IsSubsequence(b, c)
    ensures IsSubsequence(a, c)
    decreases |c|
  {
    if |a| > 0 {
      if b[0] == c[0] {
        if a[0] == b[0] {
          SubsequenceTrans(a[1..], b[1..], c[1..]);
        } else {
          SubsequenceTrans(a, b[1..], c[1..]);
        }
      } else {
        SubsequenceTrans(a, b, c[1..]);
        if a[0] == c[0] {
          SubsequenceDropHead(a, c[1..]);
        }
      }
    }
  }

  // ---------------------------------------------------------------------
  // The scan of compressStates.
  //
  // The scan walks a reverse iterator `rit` from the newest snapshot towards
  // the oldest. `k` is the reverse position of `rit` in the current list
  // (0 is the newest, so `rit` is at forward index |list| - 1 - k and the
  // snapshot one newer, `prevRit`, at |list| - k).

  datatype ScanState = ScanState(list: seq<Snapshot>, k: nat, lastStep: u32, stepCount: nat)

  /** What holds at the top of every pass: `rit` is on a snapshot older than
      the SINGLE_STEPS newest, and the run counter is no longer than the
      stretch scanned so far. */
  ghost predicate ScanInv(st: ScanState)
  {
    SINGLE_STEPS <= st.k <= |st.list| && SINGLE_STEPS < |st.list|
    && st.stepCount <= st.k - SINGLE_STEPS
  }

  /** The cycle distance between `prevRit` and `rit`: a 64-bit unsigned
      difference truncated to 32 bits. */
  function StepAt(L: seq<Snapshot>, k: nat): u32
    requires 1 <= k < |L|
  {
    Trunc32(Sub64(L[|L| - k].cycles, L[|L| - 1 - k].cycles))
  }

  /** One pass of the loop body, before `++rit`. When a run of at least
      MERGE_COUNT equal steps ends, the snapshot two positions newer than
      `rit` (what `erase(ritErase.base())` removes) is dropped; `rit` then
      sits one position closer to the newest end. */
  function ScanBody(st: ScanState): (r: ScanState)
    requires ScanInv(st) && st.k < |st.list|
    ensures ScanInv(r.(k := r.k + 1)) && |r.list| <= |st.list|
    ensures |r.list| - r.k == |st.list| - st.k
  {
    var thisStep := StepAt(st.list, st.k);
    if thisStep == st.lastStep then
      st.(stepCount := st.stepCount + 1)
    else if st.stepCount >= MERGE_COUNT then
      ScanState(RemoveAt(st.list, |st.list| - st.k + 1), st.k - 1, thisStep, 2)
    else
      st.(lastStep := thisStep, stepCount := 1)
  }

  /** A pass erases a snapshot exactly when a run of at least MERGE_COUNT
      equal steps has just ended; the erased snapshot lies past the
      SINGLE_STEPS newest and after the two oldest, and the run counter
      restarts at 2 after an erase and at 1 after any other change of step. */
  lemma ScanBodyErasesAtRunEnd(st: ScanState)
    requires ScanInv(st) && st.k < |st.list|
    ensures var r := ScanBody(st);
      var thisStep := StepAt(st.list, st.k);
      (|r.list| < |st.list| <==> thisStep != st.lastStep && st.stepCount >= MERGE_COUNT)
      && (|r.list| < |st.list| ==>
            var i := |st.list| - st.k + 1;
            2 <= i < |st.list| - SINGLE_STEPS - 2
            && r.list == RemoveAt(st.list, i) && r.stepCount == 2)
      && (|r.list| == |st.list| ==> r.list == st.list)
      && (thisStep == st.lastStep ==> r.stepCount == st.stepCount + 1)
      && (thisStep != st.lastStep && st.stepCount < MERGE_COUNT ==> r.stepCount == 1)
      && r.lastStep == thisStep
  {
  }

  /** One pass followed by `++rit`. */
  function Advance(st: ScanState): (r: ScanState)
    requires ScanInv(st) && st.k < |st.list|
    ensures ScanInv(r) && |r.list| <= |st.list|
    ensures |r.list| - r.k < |st.list| - st.k
  {
    var b := ScanBody(st);
    b.(k := b.k + 1)
  }

  /** The rest of the scan from `st` on: passes until `rit` reaches `rend()`.
      It ends with the run counter bounded by the part scanned. */
  function ScanFrom(st: ScanState): (r: ScanState)
    requires ScanInv(st)
    ensures r.k == |r.list| <= |st.list|
    ensures SINGLE_STEPS < |r.list|
    ensures r.stepCount <= |r.list| - SINGLE_STEPS
    decreases |st.list| - st.k
  {
    if st.k == |st.list| then st
    else ScanFrom(Advance(st))
  }

  /** One pass followed by `++rit` leaves the rest of the scan to do. */
  lemma ScanFromStep(st: ScanState, next: ScanState)
    requires ScanInv(st) && st.k < |st.list|
    requires next == Advance(st)
    ensures ScanInv(next) && ScanFrom(st) == ScanFrom(next)
  {
    assert st.k != |st.list|;
  }

  /** Erasing anything but the oldest entry and the SINGLE_STEPS newest keeps those. */
  lemma RemoveAtKeepsEnds(L: seq<Snapshot>, i: nat)
    requires 1 <= i < |L| - SINGLE_STEPS
    ensures RemoveAt(L, i)[0] == L[0]
    ensures RemoveAt(L, i)[|L| - 1 - SINGLE_STEPS..] == L[|L| - SINGLE_STEPS..]
  {
  }

  lemma ScanBodyKeepsEnds(st: ScanState)
    requires ScanInv(st) && st.k < |st.list|
    ensures var b := ScanBody(st);
      b.list[0] == st.list[0]
      && b.list[|b.list| - SINGLE_STEPS..] == st.list[|st.list| - SINGLE_STEPS..]
  {
    var L := st.list;
    if StepAt(L, st.k) != st.lastStep && st.stepCount >= MERGE_COUNT {
      RemoveAtKeepsEnds(L, |L| - st.k + 1);
    }
  }

  /** The scan never touches the oldest snapshot or the SINGLE_STEPS newest. */
  lemma {:induction false} ScanKeepsEnds(st: ScanState)
    requires ScanInv(st)
    ensures ScanFrom(st).list[0] == st.list[0]
    ensures ScanFrom(st).list[|ScanFrom(st).list| - SINGLE_STEPS..]
            == st.list[|st.list| - SINGLE_STEPS..]
    decreases |st.list| - st.k
  {
    if st.k < |st.list| {
      ScanBodyKeepsEnds(st);
      var next := Advance(st);
      ScanFromStep(st, next);
      ScanKeepsEnds(next);
    }
  }

  /** The snapshot list after `compressStates`: the scan starting SINGLE_STEPS
      back from the newest snapshot, followed by the removal of the
      second-oldest snapshot when a run was still open at the end or the
      scan freed nothing. */
  function Compressed(L: seq<Snapshot>): seq<Snapshot>
    requires |L| > SINGLE_STEPS
  {
    var end := ScanFrom(ScanState(L, SINGLE_STEPS, 0, 0));
    if end.stepCount >= MERGE_COUNT || |end.list| == MAX_SIZE then RemoveAt(end.list, 1)
    else end.list
  }

  /** One pass of the scan erases at most one snapshot. */
  lemma ScanBodySubsequence(st: ScanState)
    requires ScanInv(st) && st.k < |st.list|
    ensures IsSubsequence(ScanBody(st).list, st.list)
  {
    if StepAt(st.list, st.k) != st.lastStep && st.stepCount >= MERGE_COUNT {
      RemoveAtSubsequence(st.list, |st.list| - st.k + 1);
    } else {
      SubsequenceRefl(st.list);
    }
  }

  lemma {:induction false} ScanIsSubsequence(st: ScanState)
    requires ScanInv(st)
    ensures IsSubsequence(ScanFrom(st).list, st.list)
    decreases |st.list| - st.k
  {
    if st.k == |st.list| {
      SubsequenceRefl(st.list);
    } else {
      ScanBodySubsequence(st);
      var next := Advance(st);
      ScanFromStep(st, next);
      ScanIsSubsequence(next);
      SubsequenceTrans(ScanFrom(next).list, ScanBody(st).list, st.list);
    }
  }

  /** When the list is full, compression frees at least one slot. */
  lemma CompressedFreesSlot(L: seq<Snapshot>)
    requires |L| == MAX_SIZE
    ensures |Compressed(L)| < |L|
  {
  }

  /** Compression never grows the list and never shrinks it below the
      SINGLE_STEPS newest snapshots plus the oldest. */
  lemma CompressedSize(L: seq<Snapshot>)
    requires |L| > SINGLE_STEPS
    ensures SINGLE_STEPS < |Compressed(L)| <= |L|
  {
  }

  /** The SINGLE_STEPS newest snapshots and the oldest snapshot survive, and
      the survivors keep their relative order. */
  lemma CompressedKeeps(L: seq<Snapshot>)
    requires |L| > SINGLE_STEPS
    ensures var C := Compressed(L);
      |C| > SINGLE_STEPS
      && C[0] == L[0]
      && C[|C| - SINGLE_STEPS..] == L[|L| - SINGLE_STEPS..]
      && IsSubsequence(C, L)
  {
    var end := ScanFrom(ScanState(L, SINGLE_STEPS, 0, 0));
    ScanIsSubsequence(ScanState(L, SINGLE_STEPS, 0, 0));
    ScanKeepsEnds(ScanState(L, SINGLE_STEPS, 0, 0));
    if end.stepCount >= MERGE_COUNT || |end.list| == MAX_SIZE {
      var C := RemoveAt(end.list, 1);
      RemoveAtKeepsEnds(end.list, 1);
      RemoveAtSubsequence(end.list, 1);
      SubsequenceTrans(C, end.list, L);
    }
  }

  // ---------------------------------------------------------------------
  // debugList

  /** What `debugList` stores: 0 for the oldest snapshot, and for every other
      snapshot the 64-bit frame difference to the one before it. */
  function FrameDeltas(s: seq<Snapshot>): (d: seq<u64>)
    ensures |d| == |s|
  {
    seq(|s|, i requires 0 <= i < |s| => FrameDelta(s, i))
  }

  function FrameDelta(s: seq<Snapshot>, i: nat): u64
    requires i < |s|
  {
    if i == 0 then 0 else Sub64(s[i].frames, s[i - 1].frames)
  }

  /** The deltas and the oldest frame count give back every frame count. */
  lemma FrameDeltasRebuild(s: seq<Snapshot>, i: nat)
    requires 0 < i < |s|
    ensures (s[i - 1].frames + FrameDeltas(s)[i]) % TWO_64 == s[i].frames
    ensures FrameDeltas(s)[0] == 0
  {
  }
}
