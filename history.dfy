/** The history display (Ex4_history/HistorySubscriber.cpp): a listener that appends every
    valid sample to a deque and after each one shows the most recent samples, at most as
    many as its display limit; the subscriber switches between a KEEP_LAST and a KEEP_ALL
    reader, which only changes that limit on the listener side. */
module History {
  import opened Common
  import opened Samples

  function Min(a: nat, b: nat): nat {
    if a < b then a else b
  }

  /** `start_idx`: the first row shown. */
  function StartIndex(size: nat, limit: nat): (start: nat)
    ensures start <= size
    ensures size - start == Min(size, limit)
  {
    if size > limit then size - limit else 0
  }

  /** The rows shown for a history, indices [start_idx, size): the min(size, limit) most
      recent samples, in arrival order. */
  function Window(history: seq<SensorData>, limit: nat): (w: seq<SensorData>)
    ensures |w| == Min(|history|, limit)
    ensures history == history[..|history| - |w|] + w
    ensures |history| <= limit ==> w == history
  {
    history[StartIndex(|history|, limit)..]
  }

  /** One more sample slides the window: it enters at the back and, once the window is
      full, the oldest row leaves at the front. */
  lemma WindowSlides(history: seq<SensorData>, limit: nat, x: SensorData)
    ensures Window(history + [x], limit) ==
      if limit == 0 then []
      else if |history| >= limit then Window(history, limit)[1..] + [x]
      else Window(history, limit) + [x]
  {
    var h := history + [x];
    if limit > 0 && |history| >= limit {
      assert Window(h, limit) == h[|h| - limit..];
      assert Window(history, limit)[1..] == history[|history| - limit + 1..];
    }
  }

  /** The valid samples of a run, in order. */
  function ValidSamples(batch: seq<(SensorData, SampleInfo)>): (r: seq<SensorData>)
    ensures |r| <= |batch|
    decreases |batch|
  {
    if batch == [] then []
    else
      var last := batch[|batch| - 1];
      ValidSamples(batch[..|batch| - 1]) + (if last.1.validData then [last.0] else [])
  }

  /** The QoS the reader was created with; the library enforces it, the listener only
      receives what the library delivers. */
  datatype HistoryQos = KeepLast(depth: nat) | KeepAll(maxSamples: nat)

  class HistoryListener {
    const topicName: string
    var history: seq<SensorData>
    var totalSamples: u32
    var displayLimit: nat

    /** The deque never shrinks, so the uint32_t counter is its length mod 2^32. */
    ghost predicate Valid()
      reads this
    {
      totalSamples == |history| % U32_MODULUS
    }

    constructor (topicName: string)
      ensures Valid()
      ensures this.topicName == topicName && history == [] && totalSamples == 0 && displayLimit == 5
    {
      this.topicName := topicName;
      history, totalSamples, displayLimit := [], 0, 5;
    }

    method SetDisplayLimit(limit: nat)
      modifies this`displayLimit
      ensures displayLimit == limit
    {
      displayLimit := limit;
    }

    /** The body of the `take_next_sample` loop for a valid sample: append, count, and
        the rows printed. */
    method Receive(data: SensorData) returns (rows: seq<SensorData>)
      requires Valid()
      modifies this`history, this`totalSamples
      ensures Valid()
      ensures history == old(history) + [data]
      ensures totalSamples == Inc32(old(totalSamples))
      ensures |rows| == Min(|history|, displayLimit)
      ensures rows == history[|history| - |rows|..]
    {
      IncCounts(|history|);
      history := history + [data];
      totalSamples := Inc32(totalSamples);
      var start := if |history| > displayLimit then |history| - displayLimit else 0;
      rows := [];
      var i := start;
      while i < |history|
        invariant start <= i <= |history|
        invariant rows == history[start..i]
      {
        rows := rows + [history[i]];
        i := i + 1;
      }
    }

    /** `on_data_available`: every sample the reader hands over; one screen per valid one. */
    method OnDataAvailable(batch: seq<(SensorData, SampleInfo)>) returns (screens: seq<seq<SensorData>>)
      requires Valid()
      modifies this`history, this`totalSamples
      ensures Valid()
      ensures history == old(history) + ValidSamples(batch)
      ensures screens == Screens(old(history), ValidSamples(batch), displayLimit)
    {
      screens := [];
      var i := 0;
      while i < |batch|
        invariant 0 <= i <= |batch|
        invariant Valid()
        invariant history == old(history) + ValidSamples(batch[..i])
        invariant screens == Screens(old(history), ValidSamples(batch[..i]), displayLimit)
      {
        assert batch[..i + 1][..i] == batch[..i];
        ghost var before := ValidSamples(batch[..i]);
        assert ValidSamples(batch[..i + 1]) == before + (if batch[i].1.validData then [batch[i].0] else []);
        if batch[i].1.validData {
          var rows := Receive(batch[i].0);
          ScreensAppend(old(history), before, batch[i].0, displayLimit);
          assert old(history) + before + [batch[i].0] == history;
          assert rows == Window(history, displayLimit);
          screens := screens + [rows];
          assert screens == Screens(old(history), before + [batch[i].0], displayLimit);
        } else {
          assert before + [] == before;
        }
        i := i + 1;
      }
      assert batch[..i] == batch;
    }
  }

  /** The screens printed while the samples `s` arrive after `h0`: the k-th shows the
      window of everything received up to the k-th of them. */
  ghost function Screens(h0: seq<SensorData>, s: seq<SensorData>, limit: nat): (r: seq<seq<SensorData>>)
    ensures |r| == |s|
    ensures forall k :: 0 <= k < |s| ==> r[k] == Window(h0 + s[..k + 1], limit)
  {
    seq(|s|, k requires 0 <= k < |s| => Window(h0 + s[..k + 1], limit))
  }

  lemma ScreensAppend(h0: seq<SensorData>, s: seq<SensorData>, x: SensorData, limit: nat)
    ensures Screens(h0, s + [x], limit) == Screens(h0, s, limit) + [Window(h0 + s + [x], limit)]
  {
    var a := Screens(h0, s + [x], limit);
    var b := Screens(h0, s, limit) + [Window(h0 + s + [x], limit)];
    forall k | 0 <= k < |a|
      ensures a[k] == b[k]
    {
      if k < |s| {
        assert (s + [x])[..k + 1] == s[..k + 1];
      } else {
        assert (s + [x])[..k + 1] == s + [x];
      }
    }
  }

  class HistorySubscriber {
    const listener: HistoryListener
    /** The QoS of the current reader, None while `reader_` is null. */
    var readerQos: Option<HistoryQos>
    var running: bool

    ghost predicate Valid()
      reads this, listener
    {
      listener.Valid()
    }

    constructor ()
      ensures Valid() && fresh(listener)
      ensures listener.topicName == "History QoS Test" && listener.history == [] && listener.displayLimit == 5
      ensures readerQos == None && running
    {
      listener := new HistoryListener("History QoS Test");
      readerQos, running := None, true;
    }

    /** `setupKeepLastReader`: the old reader is deleted, the display limit set to 5, and
        a KEEP_LAST reader of depth 5 created; `readerOk` is whether `create_datareader`
        returned a reader (on failure `reader_` stays null). */
    method SetupKeepLastReader(readerOk: bool)
      requires Valid()
      modifies this`readerQos, listener`displayLimit
      ensures Valid()
      ensures readerQos == (if readerOk then Some(KeepLast(5)) else None) && listener.displayLimit == 5
      ensures listener.history == old(listener.history) && listener.totalSamples == old(listener.totalSamples)
    {
      listener.SetDisplayLimit(5);
      readerQos := if readerOk then Some(KeepLast(5)) else None;
    }

    /** `setupKeepAllReader`: the old reader is deleted, the display limit set to 30, and a
        KEEP_ALL reader of at most 30 samples created, if `create_datareader` succeeds. */
    method SetupKeepAllReader(readerOk: bool)
      requires Valid()
      modifies this`readerQos, listener`displayLimit
      ensures Valid()
      ensures readerQos == (if readerOk then Some(KeepAll(30)) else None) && listener.displayLimit == 30
      ensures listener.history == old(listener.history) && listener.totalSamples == old(listener.totalSamples)
    {
      listener.SetDisplayLimit(30);
      readerQos := if readerOk then Some(KeepAll(30)) else None;
    }

    /** The initial mode prompt: '1' selects KEEP_LAST, any other answer KEEP_ALL. */
    method SelectInitialMode(mode: char, readerOk: bool)
      requires Valid()
      modifies this`readerQos, listener`displayLimit
      ensures Valid()
      ensures mode == '1' ==> readerQos == (if readerOk then Some(KeepLast(5)) else None) && listener.displayLimit == 5
      ensures mode != '1' ==> readerQos == (if readerOk then Some(KeepAll(30)) else None) && listener.displayLimit == 30
      ensures listener.history == old(listener.history) && listener.totalSamples == old(listener.totalSamples)
    {
      if mode == '1' {
        SetupKeepLastReader(readerOk);
      } else {
        SetupKeepAllReader(readerOk);
      }
    }

    /** One runtime command: '1' and '2' switch the mode, 'q' stops, anything else is ignored;
        `readerOk` is the outcome of the reader creation a switch makes. */
    method HandleCommand(cmd: char, readerOk: bool)
      requires Valid()
      modifies this`readerQos, this`running, listener`displayLimit
      ensures Valid()
      ensures cmd == '1' ==>
        readerQos == (if readerOk then Some(KeepLast(5)) else None) && listener.displayLimit == 5 && running == old(running)
      ensures cmd == '2' ==>
        readerQos == (if readerOk then Some(KeepAll(30)) else None) && listener.displayLimit == 30 && running == old(running)
      ensures cmd == 'q' ==> !running && readerQos == old(readerQos) && listener.displayLimit == old(listener.displayLimit)
      ensures cmd !in "12q" ==>
        running == old(running) && readerQos == old(readerQos) && listener.displayLimit == old(listener.displayLimit)
      ensures listener.history == old(listener.history) && listener.totalSamples == old(listener.totalSamples)
    {
      if cmd == '1' {
        SetupKeepLastReader(readerOk);
      } else if cmd == '2' {
        SetupKeepAllReader(readerOk);
      } else if cmd == 'q' {
        running := false;
      }
    }
  }
}
