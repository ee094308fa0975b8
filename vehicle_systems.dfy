/** The multi-topic vehicle subscriber (Ex2_multi_topic/VehicleSystemsSubscriber.cpp):
    subscriptions to four fixed topics, a reader per subscribed topic, and a status flag
    per topic that was ever touched, driven by subscribe and unsubscribe commands. */
module VehicleSystems {
  import opened Common
  import opened Ordering

  const TOPICS: set<string> := {"powertrain", "chassis", "battery", "adas"}
  const INIT_ORDER: seq<string> := ["powertrain", "chassis", "battery", "adas"]

  /** A topic's reader: the DDS topic and type it was created for (the reader and topic
      handles are the library's). */
  datatype TopicReader = TopicReader(ddsTopic: string, ddsType: string)

  /** The branch of `subscribe_topic` that builds a reader, None for an unknown name. */
  function ReaderFor(name: string): (r: Option<TopicReader>)
    ensures r.Some? <==> name in TOPICS
  {
    if name == "powertrain" then Some(TopicReader("PowertrainTopic", "PowertrainData"))
    else if name == "chassis" then Some(TopicReader("ChassisTopic", "ChassisData"))
    else if name == "battery" then Some(TopicReader("BatteryTopic", "BatteryData"))
    else if name == "adas" then Some(TopicReader("ADASTopic", "ADASData"))
    else None
  }

  /** Each of the four names gets its own DDS topic. */
  lemma ReadersDistinct(a: string, b: string)
    requires a in TOPICS && b in TOPICS && a != b
    ensures ReaderFor(a).value.ddsTopic != ReaderFor(b).value.ddsTopic
  {
  }

  /** One line of `show_status`. */
  datatype StatusLine = StatusLine(topic: string, subscribed: bool)

  /** The lines for a status map: one per entry, in name order. */
  method StatusLines(status: map<string, bool>) returns (lines: seq<StatusLine>)
    ensures SortedNames(seq(|lines|, k requires 0 <= k < |lines| => lines[k].topic))
    ensures forall t :: t in status <==> exists k :: 0 <= k < |lines| && lines[k].topic == t
    ensures forall k :: 0 <= k < |lines| ==> lines[k].topic in status && lines[k].subscribed == status[lines[k].topic]
  {
    var names := AscendingNames(status.Keys);
    lines := [];
    var i := 0;
    while i < |names|
      invariant 0 <= i <= |names| && |lines| == i
      invariant forall k :: 0 <= k < i ==> lines[k] == StatusLine(names[k], status[names[k]])
    {
      lines := lines + [StatusLine(names[i], status[names[i]])];
      i := i + 1;
    }
    assert seq(|lines|, k requires 0 <= k < |lines| => lines[k].topic) == names;
    forall t | t in status
      ensures exists k :: 0 <= k < |lines| && lines[k].topic == t
    {
      var k :| 0 <= k < |names| && names[k] == t;
      assert lines[k].topic == t;
    }
  }

  datatype Outcome = Quit | Status(lines: seq<StatusLine>) | Subscribed(ok: bool) | Unsubscribed(ok: bool) | UnknownCommand

  class VehicleSystemsSubscriber {
    var topicReaders: map<string, TopicReader>
    var topicStatus: map<string, bool>

    /** A flag is true exactly for the topics with a reader; readers exist only for the
        four names and each is the one its name builds. */
    ghost predicate Valid()
      reads this
    {
      && topicReaders.Keys <= topicStatus.Keys <= TOPICS
      && (forall t :: t in topicStatus ==> (topicStatus[t] <==> t in topicReaders))
      && (forall t :: t in topicReaders ==> ReaderFor(t) == Some(topicReaders[t]))
    }

    constructor ()
      ensures Valid() && topicReaders == map[] && topicStatus == map[]
    {
      topicReaders, topicStatus := map[], map[];
    }

    /** `subscribe_topic`. */
    method SubscribeTopic(name: string) returns (ok: bool)
      requires Valid()
      modifies this
      ensures Valid()
      ensures ok <==> name in TOPICS
      ensures name in old(topicReaders) || name !in TOPICS ==>
        topicReaders == old(topicReaders) && topicStatus == old(topicStatus)
      ensures name !in old(topicReaders) && name in TOPICS ==>
        && topicReaders == old(topicReaders)[name := ReaderFor(name).value]
        && topicStatus == old(topicStatus)[name := true]
    {
      if name in topicReaders {
        return true;
      }
      var reader := ReaderFor(name);
      if reader.None? {
        return false;
      }
      topicReaders := topicReaders[name := reader.value];
      topicStatus := topicStatus[name := true];
      ok := true;
    }

    /** `unsubscribe_topic`: always reports success. */
    method UnsubscribeTopic(name: string) returns (ok: bool)
      requires Valid()
      modifies this
      ensures Valid()
      ensures ok
      ensures name !in old(topicReaders) ==> topicReaders == old(topicReaders) && topicStatus == old(topicStatus)
      ensures name in old(topicReaders) ==>
        && topicReaders == old(topicReaders) - {name}
        && topicStatus == old(topicStatus)[name := false]
    {
      if name !in topicReaders {
        return true;
      }
      topicReaders := topicReaders - {name};
      topicStatus := topicStatus[name := false];
      ok := true;
    }

    /** `init`, with the outcome of the participant and subscriber creation as parameters.
        It runs once, on a fresh subscriber. */
    method Init(participantOk: bool, subscriberOk: bool) returns (ok: bool)
      requires Valid() && topicReaders == map[]
      modifies this
      ensures Valid()
      ensures ok <==> participantOk && subscriberOk
      ensures !ok ==> topicReaders == old(topicReaders) && topicStatus == old(topicStatus)
      ensures ok ==> topicReaders.Keys == TOPICS && topicStatus.Keys == TOPICS
      ensures ok ==> forall t :: t in TOPICS ==> topicStatus[t] && topicReaders[t] == ReaderFor(t).value
    {
      if !participantOk || !subscriberOk {
        return false;
      }
      var i := 0;
      while i < |INIT_ORDER|
        invariant 0 <= i <= |INIT_ORDER|
        invariant Valid()
        invariant topicReaders.Keys == set j | 0 <= j < i :: INIT_ORDER[j]
      {
        var topic := INIT_ORDER[i];
        topicStatus := topicStatus[topic := false];
        var _ := SubscribeTopic(topic);
        i := i + 1;
      }
      assert topicReaders.Keys == TOPICS by {
        assert INIT_ORDER[0] in topicReaders && INIT_ORDER[1] in topicReaders;
        assert INIT_ORDER[2] in topicReaders && INIT_ORDER[3] in topicReaders;
      }
      ok := true;
    }

    /** `show_status`: every status entry in topic-name order. */
    method ShowStatus() returns (lines: seq<StatusLine>)
      requires Valid()
      ensures SortedNames(seq(|lines|, k requires 0 <= k < |lines| => lines[k].topic))
      ensures forall t :: t in topicStatus <==> exists k :: 0 <= k < |lines| && lines[k].topic == t
      ensures forall k :: 0 <= k < |lines| ==>
        lines[k].topic in topicStatus && (lines[k].subscribed <==> lines[k].topic in topicReaders)
    {
      lines := StatusLines(topicStatus);
    }

    /** One command of the `run` loop; `topic` is the word read after (un)subscribe. */
    method HandleCommand(command: string, topic: string) returns (outcome: Outcome)
      requires Valid()
      modifies this
      ensures Valid()
      ensures command == "quit" ==> outcome == Quit
      ensures command == "subscribe" ==> outcome == Subscribed(topic in TOPICS)
      ensures command == "subscribe" && (topic in old(topicReaders) || topic !in TOPICS) ==>
        topicReaders == old(topicReaders) && topicStatus == old(topicStatus)
      ensures command == "subscribe" && topic !in old(topicReaders) && topic in TOPICS ==>
        && topicReaders == old(topicReaders)[topic := ReaderFor(topic).value]
        && topicStatus == old(topicStatus)[topic := true]
      ensures command == "unsubscribe" ==> outcome == Unsubscribed(true)
      ensures command == "unsubscribe" && topic !in old(topicReaders) ==>
        topicReaders == old(topicReaders) && topicStatus == old(topicStatus)
      ensures command == "unsubscribe" && topic in old(topicReaders) ==>
        && topicReaders == old(topicReaders) - {topic}
        && topicStatus == old(topicStatus)[topic := false]
      ensures command == "status" ==>
        && outcome.Status?
        && SortedNames(seq(|outcome.lines|, k requires 0 <= k < |outcome.lines| => outcome.lines[k].topic))
        && (forall t :: t in topicStatus <==> exists k :: 0 <= k < |outcome.lines| && outcome.lines[k].topic == t)
        && (forall k :: 0 <= k < |outcome.lines| ==>
              outcome.lines[k].topic in topicStatus && (outcome.lines[k].subscribed <==> outcome.lines[k].topic in topicReaders))
      ensures command !in {"quit", "status", "subscribe", "unsubscribe"} ==> outcome == UnknownCommand
      ensures command !in {"subscribe", "unsubscribe"} ==>
        topicReaders == old(topicReaders) && topicStatus == old(topicStatus)
    {
      if command == "quit" {
        outcome := Quit;
      } else if command == "status" {
        var lines := ShowStatus();
        outcome := Status(lines);
      } else if command == "subscribe" {
        var ok := SubscribeTopic(topic);
        outcome := Subscribed(ok);
      } else if command == "unsubscribe" {
        var ok := UnsubscribeTopic(topic);
        outcome := Unsubscribed(ok);
      } else {
        outcome := UnknownCommand;
      }
    }
  }
}
