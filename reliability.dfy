/** The reliability subscriber's listener (Ex3_reliability/ReliabilitySubscriber.cpp):
    it records every received sequence number with its critical flag, keeps a continuous
    low-water mark, and after every sample reports the sequence numbers missing between the
    least and the greatest one received. */
module Reliability {
  import opened Common
  import opened Samples

  // ---------------------------------------------------------------------------
  // The missing set

  ghost predicate IsLeast(lo: u32, keys: set<u32>) {
    lo in keys && forall k :: k in keys ==> lo <= k
  }

  ghost predicate IsGreatest(hi: u32, keys: set<u32>) {
    hi in keys && forall k :: k in keys ==> k <= hi
  }

  /** The numbers of [lo, hi] that were not received. */
  ghost function Gaps(keys: set<u32>, lo: u32, hi: u32): set<u32> {
    set i: u32 | lo <= i <= hi && i !in keys
  }

  /** The missing set: numbers that were not received although a smaller and a larger one were. */
  ghost function Missing(keys: set<u32>): set<u32> {
    set i: u32 | i !in keys && (exists a :: a in keys && a <= i) && (exists b :: b in keys && i <= b)
  }

  /** The missing set is [min, max] minus the received set: disjoint from what was received,
      never holding the least or the greatest received number. */
  lemma MissingBetween(keys: set<u32>, lo: u32, hi: u32)
    requires IsLeast(lo, keys) && IsGreatest(hi, keys)
    ensures Missing(keys) == Gaps(keys, lo, hi)
    ensures Missing(keys) !! keys
    ensures lo !in Missing(keys) && hi !in Missing(keys)
    ensures forall i :: i in Missing(keys) ==> lo < i < hi
  {
    forall i: u32 | i in Gaps(keys, lo, hi)
      ensures i in Missing(keys)
    {
      assert lo in keys && lo <= i;
      assert hi in keys && i <= hi;
    }
  }

  /** Nothing is missing exactly when every number between the least and the greatest was received. */
  lemma NothingMissingIffContiguous(keys: set<u32>, lo: u32, hi: u32)
    requires IsLeast(lo, keys) && IsGreatest(hi, keys)
    ensures Missing(keys) == {} <==> forall i: u32 :: lo <= i <= hi ==> i in keys
  {
    MissingBetween(keys, lo, hi);
    if Missing(keys) == {} {
      forall i: u32 | lo <= i <= hi
        ensures i in keys
      {
        assert i !in Gaps(keys, lo, hi);
      }
    }
  }

  // ---------------------------------------------------------------------------
  // The continuous low-water mark

  /** The `steps` numbers after `anchor` (mod 2^32) were all received. */
  ghost predicate RunReceived(keys: set<u32>, anchor: u32, steps: nat) {
    forall j :: 1 <= j <= steps ==> Shift32(anchor, j) in keys
  }

  /** The mark was advanced from `anchor` through received successors up to the first one
      that is not received. */
  ghost predicate AdvancedFrom(keys: set<u32>, anchor: u32, mark: u32) {
    && (exists steps: nat :: steps < U32_MODULUS && mark == Shift32(anchor, steps) && RunReceived(keys, anchor, steps))
    && Inc32(mark) !in keys
  }

  ghost function Path(anchor: u32, steps: nat): set<u32>
    decreases steps
  {
    if steps == 0 then {} else Path(anchor, steps - 1) + {Shift32(anchor, steps)}
  }

  lemma {:induction false} PathAvoids(anchor: u32, steps: nat, m: nat)
    requires steps < m <= U32_MODULUS
    ensures Shift32(anchor, m) !in Path(anchor, steps)
    decreases steps
  {
    if steps > 0 {
      ShiftDistinct(anchor, steps, m);
      PathAvoids(anchor, steps - 1, m);
    }
  }

  lemma SubsetSize<T>(a: set<T>, b: set<T>)
    requires a <= b
    ensures |a| <= |b|
  {
    assert b == a + (b - a);
  }

  /** The `while` loop that advances `last_continuous_seq_` (it stops only because some
      number is not received, hence the bound on the key count). */
  method AdvanceMark(keys: set<u32>, anchor: u32) returns (mark: u32, ghost steps: nat)
    requires |keys| < U32_MODULUS
    ensures steps < U32_MODULUS
    ensures mark == Shift32(anchor, steps)
    ensures RunReceived(keys, anchor, steps)
    ensures Inc32(mark) !in keys
  {
    mark, steps := anchor, 0;
    ghost var visited: set<u32> := {};
    while Inc32(mark) in keys
      invariant mark == Shift32(anchor, steps)
      invariant RunReceived(keys, anchor, steps)
      invariant visited == Path(anchor, steps) && visited <= keys && |visited| == steps
      decreases |keys| - steps
    {
      SubsetSize(visited, keys);
      ShiftStep(anchor, steps);
      PathAvoids(anchor, steps, steps + 1);
      visited := visited + {Inc32(mark)};
      SubsetSize(visited, keys);
      mark := Inc32(mark);
      steps := steps + 1;
    }
    SubsetSize(visited, keys);
  }

  /** If 0xFFFFFFFF was never received, the mark only moves forward as an integer, except
      from the initial anchor 0xFFFFFFFF that a first sample numbered 0 produces. */
  lemma MarkNeverWrapsBack(keys: set<u32>, anchor: u32, steps: nat)
    requires RunReceived(keys, anchor, steps)
    requires U32_MAX !in keys && anchor != U32_MAX
    ensures Shift32(anchor, steps) == anchor + steps
  {
    var j := U32_MAX - anchor;
    assert Shift32(anchor, j) == U32_MAX;
    assert Shift32(anchor, j) !in keys;
  }

  /** A mark whose successor is not received does not move. */
  lemma BlockedMarkStays(keys: set<u32>, anchor: u32, steps: nat)
    requires Inc32(anchor) !in keys && RunReceived(keys, anchor, steps)
    ensures steps == 0
  {
    ShiftStep(anchor, 0);
    assert Shift32(anchor, 1) !in keys;
  }

  /** With one number received, the mark anchored just before it lands on it. */
  lemma SingleKeyMark(sn: u32, steps: nat)
    requires RunReceived({sn}, Dec32(sn), steps)
    requires Inc32(Shift32(Dec32(sn), steps)) != sn
    ensures steps == 1 && Shift32(Dec32(sn), steps) == sn
  {
    IncDecInverse(sn);
    ShiftStep(Dec32(sn), 0);
    ShiftStep(Dec32(sn), 1);
    assert Shift32(Dec32(sn), 1) == sn;
    assert Shift32(Dec32(sn), 2) == Inc32(sn) != sn;
    assert Shift32(Dec32(sn), 2) !in {sn};
  }

  /** Recording `sn` and advancing the mark keeps it on a received number whose successor
      is missing; a first sample puts it on `sn`, a repeated one leaves it where it was. */
  lemma MarkAfterRecord(before: set<u32>, oldMark: u32, sn: u32, steps: nat)
    requires before != {} ==> oldMark in before && Inc32(oldMark) !in before
    requires var keys := before + {sn};
      var anchor := if |keys| == 1 then Dec32(sn) else oldMark;
      RunReceived(keys, anchor, steps) && Inc32(Shift32(anchor, steps)) !in keys
    ensures var keys := before + {sn};
      var anchor := if |keys| == 1 then Dec32(sn) else oldMark;
      && Shift32(anchor, steps) in keys
      && (before == {} ==> Shift32(anchor, steps) == sn)
      && (sn in before ==> Shift32(anchor, steps) == oldMark)
  {
    var keys := before + {sn};
    if |keys| == 1 {
      assert keys == {sn};
      SingleKeyMark(sn, steps);
      if before != {} {
        assert oldMark in keys;
      }
    } else {
      assert before != {};
      ShiftStep(oldMark, steps);
      ShiftStep(oldMark, 0);
      if sn in before {
        assert keys == before;
        BlockedMarkStays(keys, oldMark, steps);
      } else if steps > 0 {
        assert Shift32(oldMark, steps) in keys;
      }
    }
  }

  // ---------------------------------------------------------------------------
  // The scans over the received key range

  /** The least and greatest received numbers (`begin()->first` and `rbegin()->first`).
      The map reads them off its ordered tree without iterating; the key set here has no
      order, so a loop over it finds them. Only the result is meant to match. */
  method KeyRange(keys: set<u32>) returns (lo: u32, hi: u32)
    requires keys != {}
    ensures IsLeast(lo, keys) && IsGreatest(hi, keys)
  {
    var x :| x in keys;
    lo, hi := x, x;
    var rest := keys - {x};
    while rest != {}
      invariant rest <= keys && lo in keys && hi in keys
      invariant forall k :: k in keys - rest ==> lo <= k <= hi
      decreases rest
    {
      var y :| y in rest;
      if y < lo { lo := y; }
      if y > hi { hi := y; }
      assert keys - (rest - {y}) == (keys - rest) + {y};
      rest := rest - {y};
    }
    assert keys - rest == keys;
  }

  /** The gap scan `for i in [first, last]: if i not received, insert i`, with an unbounded
      counter (see ScanAsWritten for the 32-bit counter of the code). The missing set is a
      std::set, printed in ascending order, which is the order the scan inserts. */
  method ScanGaps(keys: set<u32>, first: u32, last: u32) returns (missing: set<u32>, listing: seq<u32>)
    ensures missing == Gaps(keys, first, last)
    ensures Increasing(listing)
    ensures forall x :: x in listing <==> x in missing
  {
    missing, listing := {}, [];
    var i: int := first;
    while i <= last
      invariant first <= i && (i <= last + 1 || i == first)
      invariant missing == set j: u32 | first <= j < i && j !in keys
      invariant Increasing(listing)
      invariant forall x :: x in listing <==> x in missing
      invariant forall k :: 0 <= k < |listing| ==> listing[k] < i
    {
      if i !in keys {
        missing := missing + {i};
        listing := listing + [i];
      }
      i := i + 1;
    }
  }

  /** The critical listing: every received number whose latest flag is true, ascending.
      The code iterates the map's entries in ascending key order; every key lies in
      [first, last], so walking that integer range and skipping numbers that are not keys
      visits the same entries in the same order. */
  method CriticalScan(received: map<u32, bool>, first: u32, last: u32) returns (listing: seq<u32>)
    requires IsLeast(first, received.Keys) && IsGreatest(last, received.Keys)
    ensures Increasing(listing)
    ensures forall x :: x in listing <==> x in received && received[x]
  {
    listing := [];
    var i: int := first;
    while i <= last
      invariant first <= i <= last + 1
      invariant Increasing(listing)
      invariant forall x :: x in listing <==> x in received && received[x] && x < i
      invariant forall k :: 0 <= k < |listing| ==> listing[k] < i
    {
      if i in received && received[i] {
        listing := listing + [i];
      }
      i := i + 1;
    }
  }

  // ---------------------------------------------------------------------------
  // The status printout

  /** What one valid sample makes the listener print. */
  datatype StatusReport = StatusReport(
    topic: string,
    sequence: u32,
    critical: bool,
    total: nat,
    missing: seq<u32>,
    criticalReceived: seq<u32>)

  /** The text after "Missing sequences: ". */
  function MissingLine(missing: seq<u32>): (line: string)
    ensures line == "None" <==> missing == []
  {
    if missing == [] then "None" else JoinNumbers(missing)
  }

  /** Each number followed by a space; the text starts with a digit. */
  function JoinNumbers(xs: seq<u32>): (s: string)
    requires xs != []
    ensures |s| > 0 && IsDigit(s[0])
    decreases |xs|
  {
    if |xs| == 1 then Decimal(xs[0]) + " " else Decimal(xs[0]) + " " + JoinNumbers(xs[1..])
  }

  // ---------------------------------------------------------------------------
  // The listener

  class ReliabilityListener {
    const topicName: string
    var receivedSequences: map<u32, bool>
    var missingSequences: set<u32>
    var lastContinuousSeq: u32

    ghost predicate Valid()
      reads this
    {
      && missingSequences == Missing(receivedSequences.Keys)
      && (receivedSequences != map[] ==>
            lastContinuousSeq in receivedSequences && Inc32(lastContinuousSeq) !in receivedSequences)
    }

    constructor (topicName: string)
      ensures Valid()
      ensures this.topicName == topicName
      ensures receivedSequences == map[] && missingSequences == {} && lastContinuousSeq == 0
    {
      this.topicName := topicName;
      receivedSequences := map[];
      missingSequences := {};
      lastContinuousSeq := 0;
    }

    /** The body of the `take_next_sample` loop of `on_data_available`, for one sample. */
    method Receive(data: TestData, info: SampleInfo) returns (report: Option<StatusReport>)
      requires Valid()
      requires |receivedSequences| < U32_MAX
      modifies this
      ensures Valid()
      ensures !info.validData ==>
        report == None && receivedSequences == old(receivedSequences)
        && missingSequences == old(missingSequences) && lastContinuousSeq == old(lastContinuousSeq)
      ensures info.validData ==>
        && receivedSequences == old(receivedSequences)[data.sequenceNumber := data.isCritical]
        && missingSequences == Missing(receivedSequences.Keys)
        && AdvancedFrom(receivedSequences.Keys,
             if |receivedSequences| == 1 then Dec32(data.sequenceNumber) else old(lastContinuousSeq),
             lastContinuousSeq)
      ensures info.validData && old(receivedSequences) == map[] ==> lastContinuousSeq == data.sequenceNumber
      ensures info.validData && data.sequenceNumber in old(receivedSequences) ==>
        && receivedSequences.Keys == old(receivedSequences).Keys
        && missingSequences == old(missingSequences)
        && lastContinuousSeq == old(lastContinuousSeq)
      ensures info.validData ==> report.Some? && ReportFor(report.value, topicName, data, receivedSequences)
    {
      if !info.validData {
        return None;
      }
      var sn := data.sequenceNumber;
      ghost var before := receivedSequences.Keys;
      var received := receivedSequences[sn := data.isCritical];
      assert received.Keys == before + {sn};
      var anchor := if |received| == 1 then Dec32(sn) else lastContinuousSeq;
      var mark;
      ghost var steps;
      mark, steps := AdvanceMark(received.Keys, anchor);
      MarkAfterRecord(before, lastContinuousSeq, sn, steps);
      assert AdvancedFrom(received.Keys, anchor, mark);

      var first, last := KeyRange(received.Keys);
      var gaps, listing := ScanGaps(received.Keys, first, last);
      MissingBetween(received.Keys, first, last);
      var critical := CriticalScan(received, first, last);

      receivedSequences, lastContinuousSeq, missingSequences := received, mark, gaps;
      report := Some(StatusReport(topicName, sn, data.isCritical, |received|, listing, critical));
    }

    /** `on_data_available`: every sample the reader hands over, in order. */
    method OnDataAvailable(batch: seq<(TestData, SampleInfo)>) returns (reports: seq<StatusReport>)
      requires Valid()
      requires |receivedSequences| + |batch| < U32_MAX
      modifies this
      ensures Valid()
      ensures receivedSequences == Recorded(old(receivedSequences), batch)
      ensures var snaps := Snapshots(old(receivedSequences), batch);
        && |reports| == |snaps| == ValidCount(batch)
        && forall k :: 0 <= k < |reports| ==> ReportFor(reports[k], topicName, snaps[k].0, snaps[k].1)
    {
      reports := [];
      var i := 0;
      while i < |batch|
        invariant 0 <= i <= |batch|
        invariant Valid()
        invariant receivedSequences == Recorded(old(receivedSequences), batch[..i])
        invariant |receivedSequences| <= |old(receivedSequences)| + i
        invariant var snaps := Snapshots(old(receivedSequences), batch[..i]);
          |reports| == |snaps| && forall k :: 0 <= k < |reports| ==> ReportFor(reports[k], topicName, snaps[k].0, snaps[k].1)
      {
        assert batch[..i + 1] == batch[..i] + [batch[i]];
        assert batch[..i + 1][..i] == batch[..i];
        ghost var before := Snapshots(old(receivedSequences), batch[..i]);
        var r := Receive(batch[i].0, batch[i].1);
        if r.Some? {
          assert Snapshots(old(receivedSequences), batch[..i + 1]) == before + [(batch[i].0, receivedSequences)];
          reports := reports + [r.value];
        } else {
          assert Snapshots(old(receivedSequences), batch[..i + 1]) == before;
        }
        i := i + 1;
      }
      assert batch[..i] == batch;
    }
  }

  /** What the report printed for `data` says, `m` being the received map once `data`
      is recorded: the ascending missing list and the ascending critical listing. */
  ghost predicate ReportFor(r: StatusReport, topic: string, data: TestData, m: map<u32, bool>) {
    && r.topic == topic
    && r.sequence == data.sequenceNumber && r.critical == data.isCritical
    && r.total == |m|
    && Increasing(r.missing) && (forall x :: x in r.missing <==> x in Missing(m.Keys))
    && Increasing(r.criticalReceived)
    && (forall x :: x in r.criticalReceived <==> x in m && m[x])
  }

  // ---------------------------------------------------------------------------
  // Runs of samples

  /** The received map after a run of samples: valid samples overwrite their number's flag. */
  ghost function Recorded(m: map<u32, bool>, batch: seq<(TestData, SampleInfo)>): map<u32, bool>
    decreases |batch|
  {
    if batch == [] then m
    else
      var before := Recorded(m, batch[..|batch| - 1]);
      var (d, info) := batch[|batch| - 1];
      if info.validData then before[d.sequenceNumber := d.isCritical] else before
  }

  /** Each valid sample of a run, paired with the received map just after it was
      recorded; the map holds the sample's number with the sample's flag. */
  ghost function Snapshots(m: map<u32, bool>, batch: seq<(TestData, SampleInfo)>): (r: seq<(TestData, map<u32, bool>)>)
    ensures |r| == ValidCount(batch)
    ensures forall k :: 0 <= k < |r| ==>
      r[k].0.sequenceNumber in r[k].1 && r[k].1[r[k].0.sequenceNumber] == r[k].0.isCritical
    decreases |batch|
  {
    if batch == [] then []
    else
      var last := batch[|batch| - 1];
      Snapshots(m, batch[..|batch| - 1]) + (if last.1.validData then [(last.0, Recorded(m, batch))] else [])
  }

  function ValidCount(batch: seq<(TestData, SampleInfo)>): nat
    decreases |batch|
  {
    if batch == [] then 0
    else ValidCount(batch[..|batch| - 1]) + (if batch[|batch| - 1].1.validData then 1 else 0)
  }

  /** The numbers of the valid samples of a run. */
  ghost function ValidNumbers(batch: seq<(TestData, SampleInfo)>): set<u32> {
    set i | 0 <= i < |batch| && batch[i].1.validData :: batch[i].0.sequenceNumber
  }

  /** A run adds exactly its valid numbers to the key set. */
  lemma {:induction false} RecordedKeys(m: map<u32, bool>, batch: seq<(TestData, SampleInfo)>)
    ensures Recorded(m, batch).Keys == m.Keys + ValidNumbers(batch)
    decreases |batch|
  {
    if batch != [] {
      var init := batch[..|batch| - 1];
      RecordedKeys(m, init);
      assert ValidNumbers(batch) == ValidNumbers(init) +
        (if batch[|batch| - 1].1.validData then {batch[|batch| - 1].0.sequenceNumber} else {}) by {
        forall x | x in ValidNumbers(batch)
          ensures x in ValidNumbers(init) || (batch[|batch| - 1].1.validData && x == batch[|batch| - 1].0.sequenceNumber)
        {
          var i :| 0 <= i < |batch| && batch[i].1.validData && batch[i].0.sequenceNumber == x;
          if i < |batch| - 1 {
            assert init[i] == batch[i];
          }
        }
        forall x | x in ValidNumbers(init)
          ensures x in ValidNumbers(batch)
        {
          var i :| 0 <= i < |init| && init[i].1.validData && init[i].0.sequenceNumber == x;
          assert batch[i] == init[i];
        }
      }
    }
  }

  /** The stored flag is the one of the latest valid sample with that number. */
  lemma {:induction false} RecordedLatest(m: map<u32, bool>, batch: seq<(TestData, SampleInfo)>, i: nat)
    requires i < |batch| && batch[i].1.validData
    requires forall j :: i < j < |batch| && batch[j].1.validData ==> batch[j].0.sequenceNumber != batch[i].0.sequenceNumber
    ensures batch[i].0.sequenceNumber in Recorded(m, batch)
    ensures Recorded(m, batch)[batch[i].0.sequenceNumber] == batch[i].0.isCritical
    decreases |batch|
  {
    var init := batch[..|batch| - 1];
    if i < |batch| - 1 {
      assert init[i] == batch[i];
      RecordedLatest(m, init, i);
    }
  }

  /** A run never grows the map by more than its length. */
  lemma {:induction false} RecordedSize(m: map<u32, bool>, batch: seq<(TestData, SampleInfo)>)
    ensures |Recorded(m, batch)| <= |m| + |batch|
    decreases |batch|
  {
    if batch != [] {
      RecordedSize(m, batch[..|batch| - 1]);
    }
  }

  /** The gap report depends on which numbers arrived, not on the order or the repeats. */
  lemma GapsIgnoreArrivalOrder(m: map<u32, bool>, b1: seq<(TestData, SampleInfo)>, b2: seq<(TestData, SampleInfo)>)
    requires ValidNumbers(b1) == ValidNumbers(b2)
    ensures Recorded(m, b1).Keys == Recorded(m, b2).Keys
    ensures Missing(Recorded(m, b1).Keys) == Missing(Recorded(m, b2).Keys)
  {
    RecordedKeys(m, b1);
    RecordedKeys(m, b2);
  }

  /** Receiving 1, 2, 4, 5, 7 reports 3 and 6 missing. */
  lemma ExampleGaps(batch: seq<(TestData, SampleInfo)>)
    requires |batch| == 5 && forall i :: 0 <= i < 5 ==> batch[i].1.validData
    requires batch[0].0.sequenceNumber == 1 && batch[1].0.sequenceNumber == 2
    requires batch[2].0.sequenceNumber == 4 && batch[3].0.sequenceNumber == 5
    requires batch[4].0.sequenceNumber == 7
    ensures Recorded(map[], batch).Keys == {1, 2, 4, 5, 7}
    ensures Missing(Recorded(map[], batch).Keys) == {3, 6}
  {
    RecordedKeys(map[], batch);
    var keys: set<u32> := {1, 2, 4, 5, 7};
    assert ValidNumbers(batch) == keys by {
      assert batch[0].0.sequenceNumber in ValidNumbers(batch);
      assert batch[1].0.sequenceNumber in ValidNumbers(batch);
      assert batch[2].0.sequenceNumber in ValidNumbers(batch);
      assert batch[3].0.sequenceNumber in ValidNumbers(batch);
      assert batch[4].0.sequenceNumber in ValidNumbers(batch);
    }
    MissingBetween(keys, 1, 7);
    assert Gaps(keys, 1, 7) == {3, 6} by {
      forall i: u32 | i in Gaps(keys, 1, 7) ensures i == 3 || i == 6 {
        assert i != 1 && i != 2 && i != 4 && i != 5 && i != 7;
      }
      assert 3 in Gaps(keys, 1, 7) && 6 in Gaps(keys, 1, 7);
    }
  }

  // ---------------------------------------------------------------------------
  // The gap scan as written: `for (uint32_t i = first_seq; i <= last_seq; i++)`.
  // Each iteration costs one unit of fuel; None means the fuel ran out.

  function ScanAsWritten(keys: set<u32>, i: u32, last: u32, fuel: nat): Option<set<u32>>
    decreases fuel
  {
    if !(i <= last) then Some({})
    else if fuel == 0 then None
    else
      match ScanAsWritten(keys, Inc32(i), last, fuel - 1)
      case None => None
      case Some(rest) => Some(if i in keys then rest else rest + {i})
  }

  /** When the greatest received number is 0xFFFFFFFF the guard holds for every 32-bit
      counter, so the scan never finishes, however much fuel it is given. */
  lemma {:induction false} ScanNeverFinishesAtMax(keys: set<u32>, i: u32, fuel: nat)
    ensures ScanAsWritten(keys, i, U32_MAX, fuel) == None
    decreases fuel
  {
    if fuel > 0 {
      ScanNeverFinishesAtMax(keys, Inc32(i), fuel - 1);
    }
  }

  /** Below that bound the scan as written computes the gaps. */
  lemma {:induction false} ScanAsWrittenBelowMax(keys: set<u32>, i: u32, last: u32)
    requires i <= last < U32_MAX
    ensures ScanAsWritten(keys, i, last, last - i + 1) == Some(Gaps(keys, i, last))
    decreases last - i
  {
    assert Inc32(i) == i + 1;
    var rest := Gaps(keys, i + 1, last);
    if i < last {
      ScanAsWrittenBelowMax(keys, i + 1, last);
    } else {
      assert rest == {};
    }
    assert ScanAsWritten(keys, i + 1, last, last - i) == Some(rest);
    assert Gaps(keys, i, last) == (if i in keys then rest else rest + {i});
    var fuel: nat := last - i + 1;
    assert ScanAsWritten(keys, i, last, fuel) == Some(if i in keys then rest else rest + {i});
  }
}
