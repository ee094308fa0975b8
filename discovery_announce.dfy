/** The service discovery publisher (Ex6_ServiceDiscovery/ServiceDiscoveryPublisher.cpp):
    one announcement record per service, with the capabilities its type implies, whose
    status cycles with the number of the publish call. */
module DiscoveryAnnounce {
  import opened Samples

  const COMMON_CAPABILITIES: seq<string> := ["health_check", "basic_discovery"]

  /** The five service types with a capability list of their own. */
  predicate KnownType(serviceType: string) {
    serviceType in {"REST", "gRPC", "WebSocket", "GraphQL", "SOAP"}
  }

  /** The capabilities specific to a type. */
  function TypeCapabilities(serviceType: string): seq<string> {
    if serviceType == "REST" then ["CRUD", "JSON", "HTTP/1.1", "RESTful"]
    else if serviceType == "gRPC" then ["streaming", "protobuf", "HTTP/2", "bidirectional"]
    else if serviceType == "WebSocket" then ["real-time", "bi-directional", "persistent-connection", "push-notifications"]
    else if serviceType == "GraphQL" then ["query", "mutation", "subscription", "schema-introspection"]
    else if serviceType == "SOAP" then ["XML", "WSDL", "enterprise", "security"]
    else ["custom-protocol", "extensible"]
  }

  /** `getCapabilities`: the two common entries first, then the type's own. */
  function Capabilities(serviceType: string): (caps: seq<string>)
    ensures |caps| == if KnownType(serviceType) then 6 else 4
    ensures caps[..2] == COMMON_CAPABILITIES
    ensures !KnownType(serviceType) ==> caps[2..] == ["custom-protocol", "extensible"]
  {
    COMMON_CAPABILITIES + TypeCapabilities(serviceType)
  }

  /** Distinct known types advertise distinct capability lists, and none of them the
      fallback list; every unknown type gets the same fallback. */
  lemma CapabilitiesIdentifyType(a: string, b: string)
    requires KnownType(a) || KnownType(b)
    ensures Capabilities(a) == Capabilities(b) <==> a == b
  {
    if a != b {
      assert Capabilities(a)[2] != Capabilities(b)[2];
    }
  }

  /** The status of the n-th publish, n counting from 1, and its health flag. */
  datatype Status = Status(text: string, healthy: bool)

  function StatusForCall(n: int): (s: Status)
    ensures s.text in {"BUSY", "ERROR", "ACTIVE"}
    ensures s.healthy <==> s.text != "ERROR"
  {
    if n % 10 == 0 then Status("BUSY", true)
    else if n % 15 == 0 then Status("ERROR", false)
    else Status("ACTIVE", true)
  }

  /** ERROR comes exactly at the calls n with n = 15 (mod 30). */
  lemma ErrorExactlyAt15Mod30(n: nat)
    ensures StatusForCall(n).text == "ERROR" <==> n % 30 == 15
  {
    var q, r := n / 30, n % 30;
    assert n == 30 * q + r;
    assert n % 10 == r % 10 by {
      assert n == 10 * (3 * q) + r;
    }
    assert n % 15 == r % 15 by {
      assert n == 15 * (2 * q) + r;
    }
  }

  /** BUSY comes exactly at the multiples of 10, the multiples of 30 included. */
  lemma BusyAtMultiplesOf10(n: nat)
    ensures StatusForCall(n).text == "BUSY" <==> n % 10 == 0
    ensures n % 30 == 0 ==> StatusForCall(n).text == "BUSY"
  {
    if n % 30 == 0 {
      var q := n / 30;
      assert n == 10 * (3 * q);
    }
  }

  class ServiceDiscoveryPublisher {
    const serviceType: string
    var serviceInfo: ServiceInfo
    var running: bool
    /** The function-static `count` of `publish`; one publisher exists per process. */
    var count: nat
    /** What the writer was given, in order. */
    ghost var writes: seq<ServiceInfo>

    ghost predicate Valid()
      reads this
    {
      && serviceInfo.serviceType == serviceType
      && serviceInfo.capabilities == Capabilities(serviceType)
      && (count > 0 ==> Status(serviceInfo.status, serviceInfo.isHealthy) == StatusForCall(count))
      && |writes| == count
    }

    constructor (serviceName: string, serviceType: string, endpoint: string, port: nat)
      ensures Valid()
      ensures this.serviceType == serviceType && running && count == 0 && writes == []
      ensures serviceInfo.serviceName == serviceName && serviceInfo.serviceType == serviceType
      ensures serviceInfo.endpoint == endpoint && serviceInfo.port == port
      ensures serviceInfo.isHealthy && serviceInfo.capabilities == Capabilities(serviceType)
    {
      this.serviceType := serviceType;
      serviceInfo := ServiceInfo(serviceName, serviceType, endpoint, port, "", true, Capabilities(serviceType), 0);
      running := true;
      count := 0;
      writes := [];
    }

    /** `publish`, at clock reading `now`: stamp, advance the count, set the status, write. */
    method Publish(now: int)
      requires Valid()
      modifies this`serviceInfo, this`count, this`writes
      ensures Valid()
      ensures count == old(count) + 1
      ensures serviceInfo == old(serviceInfo).(timestamp := now, status := StatusForCall(count).text,
                                               isHealthy := StatusForCall(count).healthy)
      ensures writes == old(writes) + [serviceInfo]
    {
      serviceInfo := serviceInfo.(timestamp := now);
      count := count + 1;
      if count % 10 == 0 {
        serviceInfo := serviceInfo.(status := "BUSY", isHealthy := true);
      } else if count % 15 == 0 {
        serviceInfo := serviceInfo.(status := "ERROR", isHealthy := false);
      } else {
        serviceInfo := serviceInfo.(status := "ACTIVE", isHealthy := true);
      }
      writes := writes + [serviceInfo];
    }

    method Stop()
      modifies this`running
      ensures !running
    {
      running := false;
    }
  }
}
