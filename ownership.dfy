/** The steering subscriber (Ex5_ownership/SteeringSubscriber.cpp, and its identical copy
    Ex6_ownership/SteeringSubscriber.cpp): three controllers that the user switches on and
    off, a set of the strengths of those switched on, and a listener that accepts a command
    exactly when the strength its controller name maps to is in that set. */
module Ownership {
  import opened Common
  import opened Samples

  const MANUAL_NAME: string := "Manual Steering"
  const ADAS_NAME: string := "ADAS Controller"
  const EMERGENCY_NAME: string := "Emergency Controller"

  /** `getStrengthFromName`. */
  function StrengthFromName(name: string): (s: u32)
    ensures s in {0, 10, 20, 30}
    ensures s == 10 <==> name == MANUAL_NAME
    ensures s == 20 <==> name == ADAS_NAME
    ensures s == 30 <==> name == EMERGENCY_NAME
  {
    if name == MANUAL_NAME then 10
    else if name == ADAS_NAME then 20
    else if name == EMERGENCY_NAME then 30
    else 0
  }

  /** `getControllerName`: the label a strength is shown with. */
  function ControllerName(strength: u32): (shown: string)
    ensures shown != "Unknown" <==> strength in {10, 20, 30}
  {
    match strength
    case 10 => "Manual Control"
    case 20 => "ADAS Control"
    case 30 => "Emergency Control"
    case _ => "Unknown"
  }

  /** One entry of `controllers_`. */
  datatype ControllerInfo = ControllerInfo(kind: string, active: bool, strength: u32)

  /** The table the constructor fills, every controller inactive. */
  function InitialControllers(): (cs: map<int, ControllerInfo>)
    ensures cs.Keys == {1, 2, 3}
    ensures forall id :: id in cs ==> !cs[id].active && cs[id].strength == 10 * id
  {
    map[1 := ControllerInfo("Manual Control", false, 10),
        2 := ControllerInfo("ADAS Control", false, 20),
        3 := ControllerInfo("Emergency Control", false, 30)]
  }

  /** The labels `getControllerName` shows agree with the controller table. */
  lemma LabelsMatchTable(id: int)
    requires id in InitialControllers()
    ensures ControllerName(InitialControllers()[id].strength) == InitialControllers()[id].kind
  {
  }

  /** The strengths of the controllers switched on. */
  ghost function ActiveSet(cs: map<int, ControllerInfo>): set<u32> {
    set id | id in cs && cs[id].active :: cs[id].strength
  }

  /** The controllers keep the table's ids, kinds and strengths; only `active` varies. */
  ghost predicate TableShape(cs: map<int, ControllerInfo>) {
    && cs.Keys == {1, 2, 3}
    && forall id :: id in cs ==>
         cs[id].kind == InitialControllers()[id].kind && cs[id].strength == InitialControllers()[id].strength
  }

  /** `info.active = !info.active` on one controller. */
  function Flip(cs: map<int, ControllerInfo>, id: int): (r: map<int, ControllerInfo>)
    requires id in cs
    ensures r.Keys == cs.Keys && r[id].active == !cs[id].active
    ensures forall j :: j in cs && j != id ==> r[j] == cs[j]
  {
    cs[id := cs[id].(active := !cs[id].active)]
  }

  /** Toggling the same controller twice restores the table. */
  lemma FlipInvolution(cs: map<int, ControllerInfo>, id: int)
    requires id in cs
    ensures Flip(Flip(cs, id), id) == cs
  {
    var twice := Flip(Flip(cs, id), id);
    assert forall j :: j in cs ==> twice[j] == cs[j];
  }

  /** With the table's distinct strengths, a toggle inserts or erases exactly that
      controller's strength. */
  lemma ActiveSetAfterFlip(cs: map<int, ControllerInfo>, id: int)
    requires TableShape(cs) && id in cs
    ensures TableShape(Flip(cs, id))
    ensures ActiveSet(Flip(cs, id)) ==
      if Flip(cs, id)[id].active then ActiveSet(cs) + {cs[id].strength} else ActiveSet(cs) - {cs[id].strength}
  {
    var r := Flip(cs, id);
    var s := cs[id].strength;
    assert forall j :: j in cs ==> cs[j].strength == 10 * j;
    if r[id].active {
      assert s in ActiveSet(r);
    } else {
      assert s !in ActiveSet(r);
    }
  }

  /** Setting a controller active adds its strength. */
  lemma SwitchOn(cs: map<int, ControllerInfo>, id: int)
    requires TableShape(cs) && id in cs
    ensures TableShape(cs[id := cs[id].(active := true)])
    ensures ActiveSet(cs[id := cs[id].(active := true)]) == ActiveSet(cs) + {cs[id].strength}
  {
    if cs[id].active {
      assert cs[id := cs[id].(active := true)] == cs;
    } else {
      ActiveSetAfterFlip(cs, id);
    }
  }

  /** The acceptance rule: a non-empty active set that holds the name's strength. */
  predicate Accepts(active: set<u32>, name: string) {
    active != {} && StrengthFromName(name) in active
  }

  /** A name none of the publishers uses is never accepted while only the table's
      strengths can be active. */
  lemma UnknownNameRejected(active: set<u32>, name: string)
    requires active <= {10, 20, 30}
    requires name != MANUAL_NAME && name != ADAS_NAME && name != EMERGENCY_NAME
    ensures !Accepts(active, name)
  {
  }

  /** Only the table's strengths are ever active, so strength 0 never is. */
  lemma ActiveWithinTable(cs: map<int, ControllerInfo>)
    requires TableShape(cs)
    ensures ActiveSet(cs) <= {10, 20, 30}
  {
    forall s | s in ActiveSet(cs)
      ensures s in {10, 20, 30}
    {
      var id :| id in cs && cs[id].active && cs[id].strength == s;
    }
  }

  /** How many valid commands of a run the rule accepts. */
  function AcceptedCount(active: set<u32>, batch: seq<(SteeringCommand, SampleInfo)>): (n: nat)
    ensures n <= |batch|
    decreases |batch|
  {
    if batch == [] then 0
    else
      var last := batch[|batch| - 1];
      AcceptedCount(active, batch[..|batch| - 1])
        + (if last.1.validData && Accepts(active, last.0.controllerName) then 1 else 0)
  }

  /** `active_strengths_`, which the subscriber owns and the listener refers to. */
  class StrengthSet {
    var members: set<u32>

    constructor ()
      ensures members == {}
    {
      members := {};
    }
  }

  class SteeringListener {
    const controllerType: string
    const active: StrengthSet
    const strength: u32
    var receivedCount: int

    constructor (controllerType: string, active: StrengthSet, strength: u32)
      ensures this.controllerType == controllerType && this.active == active && this.strength == strength
      ensures receivedCount == 0
    {
      this.controllerType, this.active, this.strength := controllerType, active, strength;
      receivedCount := 0;
    }

    /** The body of the `take_next_sample` loop for one valid command. The loop over the
        higher strengths sets `is_highest_active` to true on every path, so it never
        rejects. */
    method Receive(command: SteeringCommand) returns (accepted: bool)
      modifies this`receivedCount
      ensures accepted <==> Accepts(active.members, command.controllerName)
      ensures receivedCount == old(receivedCount) + (if accepted then 1 else 0)
    {
      accepted := false;
      if active.members == {} {
        return;
      }
      var controllerStrength := StrengthFromName(command.controllerName);
      if controllerStrength in active.members {
        var isHighestActive := true;
        var rest := active.members;
        while rest != {}
          invariant isHighestActive
          decreases rest
        {
          var s :| s in rest;
          if s > controllerStrength {
            isHighestActive := true;
          }
          rest := rest - {s};
        }
        if isHighestActive {
          receivedCount := receivedCount + 1;
          accepted := true;
        }
      }
    }

    /** `on_data_available`: every command the reader hands over. */
    method OnDataAvailable(batch: seq<(SteeringCommand, SampleInfo)>)
      modifies this`receivedCount
      ensures receivedCount == old(receivedCount) + AcceptedCount(active.members, batch)
    {
      var i := 0;
      while i < |batch|
        invariant 0 <= i <= |batch|
        invariant receivedCount == old(receivedCount) + AcceptedCount(active.members, batch[..i])
      {
        assert batch[..i + 1][..i] == batch[..i];
        if batch[i].1.validData {
          var _ := Receive(batch[i].0);
        }
        i := i + 1;
      }
      assert batch[..i] == batch;
    }
  }

  /** One line of `showStatus`. */
  datatype StatusLine = StatusLine(kind: string, active: bool, strength: u32)

  /** `showStatus` lists the controllers in ascending id order: one line per controller
      with its kind, flag and strength. */
  ghost predicate ShowsControllers(lines: seq<StatusLine>, cs: map<int, ControllerInfo>) {
    && |lines| == 3
    && forall k :: 0 <= k < 3 ==>
         k + 1 in cs && lines[k] == StatusLine(cs[k + 1].kind, cs[k + 1].active, cs[k + 1].strength)
  }

  class SteeringSubscriber {
    var controllers: map<int, ControllerInfo>
    const activeStrengths: StrengthSet
    var listener: SteeringListener?
    var running: bool

    ghost predicate Valid()
      reads this, activeStrengths, listener
    {
      && TableShape(controllers)
      && activeStrengths.members == ActiveSet(controllers)
      && (listener != null ==> listener.active == activeStrengths && listener.strength == 0)
    }

    constructor ()
      ensures Valid() && fresh(activeStrengths)
      ensures controllers == InitialControllers() && activeStrengths.members == {}
      ensures listener == null && running
    {
      controllers := InitialControllers();
      activeStrengths := new StrengthSet();
      listener := null;
      running := true;
      new;
      assert ActiveSet(controllers) == {};
    }

    /** `init`, with the outcome of each library call as a parameter: the first failure
        returns false. Controller 1 is switched on before the reader is created. */
    method Init(participantOk: bool, topicOk: bool, subscriberOk: bool, readerOk: bool) returns (ok: bool)
      requires Valid()
      modifies this`controllers, this`listener, activeStrengths
      ensures Valid()
      ensures ok <==> participantOk && topicOk && subscriberOk && readerOk
      ensures !(participantOk && topicOk && subscriberOk) ==>
        controllers == old(controllers) && activeStrengths.members == old(activeStrengths.members)
        && listener == old(listener)
      ensures participantOk && topicOk && subscriberOk ==>
        && controllers == old(controllers)[1 := old(controllers)[1].(active := true)]
        && activeStrengths.members == old(activeStrengths.members) + {10}
        && listener != null && fresh(listener) && listener.controllerType == "SteeringControl"
        && listener.receivedCount == 0
    {
      if !participantOk || !topicOk || !subscriberOk {
        return false;
      }
      SwitchOn(controllers, 1);
      activeStrengths.members := activeStrengths.members + {controllers[1].strength};
      controllers := controllers[1 := controllers[1].(active := true)];
      listener := new SteeringListener("SteeringControl", activeStrengths, 0);
      ok := readerOk;
    }

    /** `toggleController`; the command loop only passes ids 1 to 3. */
    method ToggleController(id: int)
      requires Valid() && 1 <= id <= 3
      modifies this`controllers, activeStrengths
      ensures Valid()
      ensures controllers == Flip(old(controllers), id)
      ensures controllers[id].active ==> activeStrengths.members == old(activeStrengths.members) + {controllers[id].strength}
      ensures !controllers[id].active ==> activeStrengths.members == old(activeStrengths.members) - {controllers[id].strength}
    {
      ActiveSetAfterFlip(controllers, id);
      var info := controllers[id];
      controllers := controllers[id := info.(active := !info.active)];
      if controllers[id].active {
        activeStrengths.members := activeStrengths.members + {info.strength};
      } else {
        activeStrengths.members := activeStrengths.members - {info.strength};
      }
    }

    /** `showStatus`: the controllers in ascending id order. */
    method ShowStatus() returns (lines: seq<StatusLine>)
      requires Valid()
      ensures ShowsControllers(lines, controllers)
    {
      lines := [];
      var id := 1;
      while id <= 3
        invariant 1 <= id <= 4 && |lines| == id - 1
        invariant forall k :: 0 <= k < id - 1 ==>
          lines[k] == StatusLine(controllers[k + 1].kind, controllers[k + 1].active, controllers[k + 1].strength)
      {
        var info := controllers[id];
        lines := lines + [StatusLine(info.kind, info.active, info.strength)];
        id := id + 1;
      }
    }

    /** One command of the input loop: '1' to '3' toggle, 's' shows, 'q' stops. */
    method HandleCommand(cmd: char) returns (lines: seq<StatusLine>)
      requires Valid()
      modifies this`controllers, this`running, activeStrengths
      ensures Valid()
      ensures '1' <= cmd <= '3' ==>
        && controllers == Flip(old(controllers), cmd as int - '0' as int)
        && running == old(running) && ShowsControllers(lines, controllers)
      ensures cmd == 's' ==> controllers == old(controllers) && running == old(running) && ShowsControllers(lines, controllers)
      ensures cmd == 'q' ==> !running && controllers == old(controllers) && lines == []
      ensures !('1' <= cmd <= '3') && cmd != 's' && cmd != 'q' ==>
        controllers == old(controllers) && running == old(running) && lines == []
      ensures !('1' <= cmd <= '3') ==> activeStrengths.members == old(activeStrengths.members)
    {
      lines := [];
      if '1' <= cmd <= '3' {
        ToggleController(cmd as int - '0' as int);
        lines := ShowStatus();
      } else if cmd == 's' {
        lines := ShowStatus();
      } else if cmd == 'q' {
        running := false;
      }
    }
  }

  /** After construction and a successful `init`, only controller 1 is on: active set {10}. */
  method StartUp() returns (s: SteeringSubscriber, ok: bool)
    ensures s.Valid() && ok
    ensures s.activeStrengths.members == {10}
    ensures forall id :: id in s.controllers ==> (s.controllers[id].active <==> id == 1)
    ensures s.listener != null && s.listener.active == s.activeStrengths
  {
    s := new SteeringSubscriber();
    ok := s.Init(true, true, true, true);
  }
}
