/** The steering publisher (Ex5_ownership/SteeringPublisher.cpp): a controller type fixes
    the writer's ownership strength, the name its commands carry, and the reason and
    emergency flag of every command; `main` picks the type from its one argument. */
module SteeringControl {
  import opened Common
  import opened Samples
  import Ownership

  datatype ControllerType = Manual | Adas | Emergency

  /** The constructor's switch: the writer's ownership strength. */
  function OwnershipStrength(t: ControllerType): u32 {
    match t
    case Manual => 10
    case Adas => 20
    case Emergency => 30
  }

  /** The constructor's switch: the controller name every command carries. */
  function ControllerNameFor(t: ControllerType): string {
    match t
    case Manual => Ownership.MANUAL_NAME
    case Adas => Ownership.ADAS_NAME
    case Emergency => Ownership.EMERGENCY_NAME
  }

  /** `generateCommand`'s switch: the control reason. */
  function ControlReason(t: ControllerType): string {
    match t
    case Manual => "Regular driving"
    case Adas => "Lane keeping assist"
    case Emergency => "Collision avoidance"
  }

  /** `generateCommand`'s switch: the emergency flag. */
  function IsEmergency(t: ControllerType): (e: bool)
    ensures e <==> t == Emergency
  {
    match t
    case Manual => false
    case Adas => false
    case Emergency => true
  }

  /** Different types get different strengths. */
  lemma StrengthsDistinct(a: ControllerType, b: ControllerType)
    requires a != b
    ensures OwnershipStrength(a) != OwnershipStrength(b)
    ensures ControllerNameFor(a) != ControllerNameFor(b)
    ensures ControlReason(a) != ControlReason(b)
  {
  }

  /** The subscriber reads back from the name the strength the publisher's writer has. */
  lemma NameRoundTrip(t: ControllerType)
    ensures Ownership.StrengthFromName(ControllerNameFor(t)) == OwnershipStrength(t)
    ensures Ownership.ControllerName(OwnershipStrength(t)) != "Unknown"
  {
  }

  /** So a command from a type is accepted exactly while that type's strength is active. */
  lemma AcceptedIffStrengthActive(t: ControllerType, active: set<u32>)
    ensures Ownership.Accepts(active, ControllerNameFor(t)) <==> OwnershipStrength(t) in active
  {
    NameRoundTrip(t);
  }

  class SteeringPublisher {
    const controllerType: ControllerType
    const ownershipStrength: u32
    var command: SteeringCommand
    var running: bool
    /** What the writer was given, in order. */
    ghost var writes: seq<SteeringCommand>

    ghost predicate Valid()
      reads this
    {
      && ownershipStrength == OwnershipStrength(controllerType)
      && command.controllerName == ControllerNameFor(controllerType)
    }

    constructor (t: ControllerType)
      ensures Valid()
      ensures controllerType == t && running && writes == []
    {
      controllerType := t;
      ownershipStrength := OwnershipStrength(t);
      command := SteeringCommand(ControllerNameFor(t), "", false, 0);
      running := true;
      writes := [];
    }

    /** `generateCommand`, at clock reading `now`. */
    method GenerateCommand(now: int)
      requires Valid()
      modifies this`command
      ensures Valid()
      ensures command == SteeringCommand(ControllerNameFor(controllerType), ControlReason(controllerType),
                                         IsEmergency(controllerType), now)
    {
      command := command.(timestamp := now);
      match controllerType
      case Manual =>
        command := command.(controlReason := "Regular driving", emergencyControl := false);
      case Adas =>
        command := command.(controlReason := "Lane keeping assist", emergencyControl := false);
      case Emergency =>
        command := command.(controlReason := "Collision avoidance", emergencyControl := true);
    }

    /** `publish`: a fresh command, written. */
    method Publish(now: int)
      requires Valid()
      modifies this`command, this`writes
      ensures Valid()
      ensures writes == old(writes) + [command]
      ensures command.timestamp == now && command.controlReason == ControlReason(controllerType)
      ensures command.emergencyControl <==> controllerType == Emergency
    {
      GenerateCommand(now);
      writes := writes + [command];
    }

    method Stop()
      modifies this`running
      ensures !running
    {
      running := false;
    }
  }

  /** How `main` ends before it constructs a publisher. */
  datatype Launch =
    | Usage                       // argc != 2: usage text, exit code 1
    | InvalidType                 // a number other than 1, 2, 3: exit code 1
    | Aborted                     // std::stoi throws outside the try block: the program terminates
    | Start(t: ControllerType)

  /** `main`'s argument handling; `args` are the arguments after the program name. */
  function MainLaunch(args: seq<string>): (l: Launch)
    ensures l == Usage <==> |args| != 1
    ensures l.Start? ==> |args| == 1 && Stoi(args[0]) == Some(TypeNumber(l.t))
    ensures l == InvalidType <==> |args| == 1 && Stoi(args[0]).Some? && Stoi(args[0]).value !in {1, 2, 3}
    ensures |args| == 1 && Stoi(args[0]).None? ==> l == Aborted
  {
    if |args| != 1 then Usage
    else
      match Stoi(args[0])
      case None => Aborted
      case Some(n) =>
        if n == 1 then Start(Manual)
        else if n == 2 then Start(Adas)
        else if n == 3 then Start(Emergency)
        else InvalidType
  }

  /** The exit code `main` returns when it does not start (1 in both cases). */
  function ExitCode(l: Launch): (code: Option<int>)
    ensures code == Some(1) <==> l == Usage || l == InvalidType
  {
    match l
    case Usage => Some(1)
    case InvalidType => Some(1)
    case _ => None
  }

  /** "1", "2" and "3" select the three types. */
  lemma DigitArgumentsSelect()
    ensures MainLaunch(["1"]) == Start(Manual)
    ensures MainLaunch(["2"]) == Start(Adas)
    ensures MainLaunch(["3"]) == Start(Emergency)
    ensures MainLaunch(["4"]) == InvalidType && MainLaunch(["0"]) == InvalidType
    ensures MainLaunch(["x"]) == Aborted
  {
    StoiOfDecimal(1);
    StoiOfDecimal(2);
    StoiOfDecimal(3);
    StoiOfDecimal(4);
    StoiOfDecimal(0);
    assert Decimal(1) == "1" && Decimal(2) == "2" && Decimal(3) == "3" && Decimal(4) == "4" && Decimal(0) == "0";
    assert DigitRun("x") == 0;
  }

  /** The number that selects a type on the command line. */
  function TypeNumber(t: ControllerType): nat {
    match t
    case Manual => 1
    case Adas => 2
    case Emergency => 3
  }

  /** Every type is reachable: the decimal text of its number selects it. */
  lemma LaunchRoundTrip(t: ControllerType)
    ensures MainLaunch([Decimal(TypeNumber(t))]) == Start(t)
  {
    StoiOfDecimal(TypeNumber(t));
  }
}
