/** The reliability publisher (Ex3_reliability/ReliabilityPublisher.cpp): it numbers its
    samples, marks every fifth one critical, and while paused keeps only the critical ones
    in a queue that the next unpaused publish flushes to the reliable writer. */
module PausePublisher {
  import opened Common
  import opened Samples

  const MESSAGE_PREFIX: string := "Message #"
  const CRITICAL_SUFFIX: string := " (CRITICAL)"

  /** The text a sample carries. */
  function MessageText(n: nat, critical: bool): string {
    MESSAGE_PREFIX + Decimal(n) + (if critical then CRITICAL_SUFFIX else "")
  }

  /** Reads a message text back into its number and critical flag. */
  function ParseMessage(m: string): Option<(nat, bool)> {
    if |m| < |MESSAGE_PREFIX| || m[..|MESSAGE_PREFIX|] != MESSAGE_PREFIX then None
    else
      var rest := m[|MESSAGE_PREFIX|..];
      var n := DigitRun(rest);
      if n == 0 then None
      else if rest[n..] == "" then Some((DigitsValue(rest[..n]), false))
      else if rest[n..] == CRITICAL_SUFFIX then Some((DigitsValue(rest[..n]), true))
      else None
  }

  /** The text determines the number and the flag it was made from. */
  lemma MessageRoundTrip(n: nat, critical: bool)
    ensures ParseMessage(MessageText(n, critical)) == Some((n, critical))
  {
    var digits := Decimal(n);
    var suffix := if critical then CRITICAL_SUFFIX else "";
    var m := MessageText(n, critical);
    assert m[..|MESSAGE_PREFIX|] == MESSAGE_PREFIX;
    var rest := m[|MESSAGE_PREFIX|..];
    assert rest == digits + suffix;
    DigitRunStops(digits, suffix);
    assert rest[..|digits|] == digits;
    assert rest[|digits|..] == suffix;
    DecimalRoundTrip(n);
  }

  /** The sample `publish` builds for number n. */
  function MakeSample(now: int, n: u32): (d: TestData)
    ensures d.sequenceNumber == n && d.timestamp == now
    ensures d.isCritical <==> n % 5 == 0
    ensures ParseMessage(d.message) == Some((n as nat, d.isCritical))
  {
    MessageRoundTrip(n, n % 5 == 0);
    TestData(now, n, n % 5 == 0, MessageText(n, n % 5 == 0))
  }

  /** Each sample was made by an earlier call, numbered by that call's index mod 2^32. */
  ghost predicate Stamped(samples: seq<TestData>, at: seq<nat>, count: nat) {
    && |samples| == |at|
    && forall k :: 0 <= k < |at| ==> at[k] < count && samples[k].sequenceNumber == at[k] % U32_MODULUS
  }

  /** Stamped, and the sample of call `count` may follow. */
  lemma StampedLater(samples: seq<TestData>, at: seq<nat>, count: nat)
    requires Stamped(samples, at, count)
    ensures Stamped(samples, at, count + 1)
    ensures forall d: TestData :: d.sequenceNumber == count % U32_MODULUS ==>
      Stamped(samples + [d], at + [count], count + 1)
  {
    forall d: TestData | d.sequenceNumber == count % U32_MODULUS
      ensures Stamped(samples + [d], at + [count], count + 1)
    {
      assert forall k :: 0 <= k < |at| ==> (at + [count])[k] == at[k] && (samples + [d])[k] == samples[k];
    }
  }

  lemma StampedConcat(a: seq<TestData>, at: seq<nat>, b: seq<TestData>, bt: seq<nat>, count: nat)
    requires Stamped(a, at, count) && Stamped(b, bt, count)
    ensures Stamped(a + b, at + bt, count)
  {
    forall k | 0 <= k < |at + bt|
      ensures (at + bt)[k] < count && (a + b)[k].sequenceNumber == (at + bt)[k] % U32_MODULUS
    {
      if k >= |at| {
        assert (at + bt)[k] == bt[k - |at|] && (a + b)[k] == b[k - |at|];
      }
    }
  }

  lemma IncreasingAppend(s: seq<int>, x: int)
    requires Increasing(s) && forall k :: 0 <= k < |s| ==> s[k] < x
    ensures Increasing(s + [x])
  {
  }

  class ReliabilityPublisher {
    /** g_is_paused and g_running, the globals the keyboard routine flips. */
    var paused: bool
    var running: bool
    var sequenceNumber: u32
    var data: TestData
    var pausedReliableMessages: seq<TestData>

    /** What the reliable and the best-effort writers were given, in order. */
    ghost var reliableWrites: seq<TestData>
    ghost var bestEffortWrites: seq<TestData>
    /** How many times `publish` ran, and at which of those calls each reliable write
        and each queued message was made. */
    ghost var publishCount: nat
    ghost var reliableAt: seq<nat>
    ghost var queuedAt: seq<nat>

    ghost predicate Valid()
      reads this
    {
      sequenceNumber == publishCount % U32_MODULUS && Consistent(publishCount)
    }

    /** The writer logs and the queue hold samples of the first `count` calls, in call
        order, and only critical samples wait in the queue. */
    ghost predicate Consistent(count: nat)
      reads this
    {
      && Stamped(reliableWrites, reliableAt, count)
      && Stamped(pausedReliableMessages, queuedAt, count)
      && Increasing(reliableAt + queuedAt)
      && (forall k :: 0 <= k < |pausedReliableMessages| ==> pausedReliableMessages[k].isCritical)
    }

    constructor ()
      ensures Valid()
      ensures !paused && running && sequenceNumber == 0 && pausedReliableMessages == []
      ensures reliableWrites == [] && bestEffortWrites == []
    {
      paused, running, sequenceNumber := false, true, 0;
      data := TestData(0, 0, false, "");
      pausedReliableMessages := [];
      reliableWrites, bestEffortWrites := [], [];
      publishCount, reliableAt, queuedAt := 0, [], [];
    }

    /** One call of `publish`, at clock reading `now`. */
    method Publish(now: int) returns (ok: bool)
      requires Valid()
      modifies this
      ensures Valid()
      ensures ok
      ensures data == MakeSample(now, old(sequenceNumber))
      ensures sequenceNumber == Inc32(old(sequenceNumber))
      ensures paused == old(paused) && running == old(running)
      ensures !paused ==>
        && reliableWrites == old(reliableWrites) + old(pausedReliableMessages) + [data]
        && bestEffortWrites == old(bestEffortWrites) + [data]
        && pausedReliableMessages == []
      ensures paused && data.isCritical ==>
        && pausedReliableMessages == old(pausedReliableMessages) + [data]
        && reliableWrites == old(reliableWrites) && bestEffortWrites == old(bestEffortWrites)
      ensures paused && !data.isCritical ==>
        && pausedReliableMessages == old(pausedReliableMessages)
        && reliableWrites == old(reliableWrites) && bestEffortWrites == old(bestEffortWrites)
    {
      data := MakeSample(now, sequenceNumber);
      Dispatch();
      IncCounts(publishCount);
      sequenceNumber := Inc32(sequenceNumber);
      publishCount := publishCount + 1;
      ok := true;
    }

    /** Where the sample of the current call goes, by the pause flag and its criticality. */
    method Dispatch()
      requires Consistent(publishCount) && data.sequenceNumber == publishCount % U32_MODULUS
      modifies this`reliableWrites, this`reliableAt, this`bestEffortWrites, this`pausedReliableMessages, this`queuedAt
      ensures Consistent(publishCount + 1)
      ensures !paused ==>
        && reliableWrites == old(reliableWrites) + old(pausedReliableMessages) + [data]
        && bestEffortWrites == old(bestEffortWrites) + [data]
        && pausedReliableMessages == []
      ensures paused && data.isCritical ==>
        && pausedReliableMessages == old(pausedReliableMessages) + [data]
        && reliableWrites == old(reliableWrites) && bestEffortWrites == old(bestEffortWrites)
      ensures paused && !data.isCritical ==>
        && pausedReliableMessages == old(pausedReliableMessages)
        && reliableWrites == old(reliableWrites) && bestEffortWrites == old(bestEffortWrites)
    {
      ghost var n := publishCount;
      StampedLater(reliableWrites, reliableAt, n);
      StampedLater(pausedReliableMessages, queuedAt, n);
      if !paused {
        ghost var at := reliableAt + queuedAt;
        StampedConcat(reliableWrites, reliableAt, pausedReliableMessages, queuedAt, n + 1);
        FlushQueue();
        assert reliableAt == at;
        IncreasingAppend(reliableAt, n);
        reliableWrites, reliableAt := reliableWrites + [data], reliableAt + [n];
        assert reliableAt + queuedAt == reliableAt;
        bestEffortWrites := bestEffortWrites + [data];
      } else if data.isCritical {
        IncreasingAppend(reliableAt + queuedAt, n);
        assert reliableAt + (queuedAt + [n]) == reliableAt + queuedAt + [n];
        pausedReliableMessages, queuedAt := pausedReliableMessages + [data], queuedAt + [n];
      }
    }

    /** The flush loop: pop the queue's front to the reliable writer until it is empty. */
    method FlushQueue()
      requires |queuedAt| == |pausedReliableMessages|
      modifies this`reliableWrites, this`reliableAt, this`pausedReliableMessages, this`queuedAt
      ensures reliableWrites == old(reliableWrites) + old(pausedReliableMessages)
      ensures reliableAt == old(reliableAt) + old(queuedAt)
      ensures pausedReliableMessages == [] && queuedAt == []
    {
      while pausedReliableMessages != []
        invariant reliableWrites + pausedReliableMessages == old(reliableWrites) + old(pausedReliableMessages)
        invariant reliableAt + queuedAt == old(reliableAt) + old(queuedAt)
        invariant |queuedAt| == |pausedReliableMessages|
        decreases |pausedReliableMessages|
      {
        reliableWrites := reliableWrites + [pausedReliableMessages[0]];
        reliableAt := reliableAt + [queuedAt[0]];
        assert reliableWrites + pausedReliableMessages[1..] == old(reliableWrites) + old(pausedReliableMessages);
        assert reliableAt + queuedAt[1..] == old(reliableAt) + old(queuedAt);
        pausedReliableMessages := pausedReliableMessages[1..];
        queuedAt := queuedAt[1..];
      }
      assert reliableWrites == old(reliableWrites) + old(pausedReliableMessages);
      assert reliableAt == old(reliableAt) + old(queuedAt);
    }

    /** One key press handled by the keyboard routine. */
    method HandleKey(c: char)
      requires Valid()
      modifies this`paused, this`running
      ensures Valid()
      ensures (c == 'p' || c == 'P') ==> paused == !old(paused) && running == old(running)
      ensures (c == 'q' || c == 'Q') ==> !running && paused == old(paused)
      ensures c !in "pPqQ" ==> paused == old(paused) && running == old(running)
    {
      if c == 'p' || c == 'P' {
        paused := !paused;
      } else if c == 'q' || c == 'Q' {
        running := false;
      }
    }
  }

  /** Until the 32-bit counter wraps, queued messages carry strictly increasing numbers,
      so the flush sends them in the order they were published. */
  lemma QueueInPublishOrder(p: ReliabilityPublisher)
    requires p.Valid() && p.publishCount <= U32_MODULUS
    ensures forall i, j :: 0 <= i < j < |p.pausedReliableMessages| ==>
      p.pausedReliableMessages[i].sequenceNumber < p.pausedReliableMessages[j].sequenceNumber
  {
    forall i, j | 0 <= i < j < |p.pausedReliableMessages|
      ensures p.pausedReliableMessages[i].sequenceNumber < p.pausedReliableMessages[j].sequenceNumber
    {
      var n := |p.reliableAt|;
      assert (p.reliableAt + p.queuedAt)[n + i] == p.queuedAt[i];
      assert (p.reliableAt + p.queuedAt)[n + j] == p.queuedAt[j];
      assert p.queuedAt[i] < p.queuedAt[j] < p.publishCount;
    }
  }

  /** The same holds for everything the reliable writer was given. */
  lemma ReliableInPublishOrder(p: ReliabilityPublisher)
    requires p.Valid() && p.publishCount <= U32_MODULUS
    ensures forall i, j :: 0 <= i < j < |p.reliableWrites| ==>
      p.reliableWrites[i].sequenceNumber < p.reliableWrites[j].sequenceNumber
  {
    forall i, j | 0 <= i < j < |p.reliableWrites|
      ensures p.reliableWrites[i].sequenceNumber < p.reliableWrites[j].sequenceNumber
    {
      assert (p.reliableAt + p.queuedAt)[i] == p.reliableAt[i];
      assert (p.reliableAt + p.queuedAt)[j] == p.reliableAt[j];
    }
  }
}
