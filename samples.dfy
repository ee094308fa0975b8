/** The sample types the programs exchange. Their IDL definitions are not part of this
    model; only the fields the modelled logic reads or writes are kept, with the integer
    widths the code implies. */
module Samples {
  import opened Common

  /** What the transport reports beside a taken sample. */
  datatype SampleInfo = SampleInfo(validData: bool)

  /** ReliabilityTest: one numbered test message. */
  datatype TestData = TestData(timestamp: int, sequenceNumber: u32, isCritical: bool, message: string)

  /** HistoryTest: one sensor reading (temperature, humidity and pressure are floats and are not kept). */
  datatype SensorData = SensorData(sequenceNumber: int, timestamp: int)

  /** SteeringControl: one steering command (angle, speed and torque are floats and are not kept). */
  datatype SteeringCommand = SteeringCommand(
    controllerName: string,
    controlReason: string,
    emergencyControl: bool,
    timestamp: int)

  /** ServiceDiscovery: one service announcement. */
  datatype ServiceInfo = ServiceInfo(
    serviceName: string,
    serviceType: string,
    endpoint: string,
    port: nat,
    status: string,
    isHealthy: bool,
    capabilities: seq<string>,
    timestamp: int)
}
