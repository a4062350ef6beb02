/** Values the FMI 1.0 co-simulation driver works with: the status codes of the
    FMI Library, the checker's settings, what the model description declares,
    the answers of the foreign FMU and CSV calls, and the calls themselves. */
module Fmi1Types {

  datatype Option<+T> = None | Some(value: T)

  /** fmi1_status_t: the status every FMI 1.0 call returns. */
  datatype FmiStatus = Ok | Warning | Discard | Error | Fatal | Pending

  /** jm_status_enu_t: the status of the import library and of the driver itself. */
  datatype JmStatus = JmError | JmSuccess | JmWarning

  /** fmi1_fmu_kind_enu_t: what kind of FMU was loaded. */
  datatype FmuKind = ModelExchange | CsStandalone | CsTool | UnknownKind

  /** The transports the driver can start itself. */
  const SharedLibraryMime: string := "application/x-fmu-sharedlibrary"
  const ModelicaMime: string := "application/x-fmu-modelica"

  /** The fixed instance name the slave is instantiated with. */
  const InstanceName: string := "Test FMI 1.0 CS"

  /** The settings of the checker run that the driver reads. */
  datatype Config = Config(
    kind: FmuKind,
    location: string,
    stopTime: real,
    stepSize: real,
    numSteps: nat)

  /** What the model description declares: the MIME type of the requested
      simulator (None stands for a null pointer) and the default experiment. */
  datatype ModelDescription = ModelDescription(
    mimeType: Option<string>,
    defaultStart: real,
    defaultStop: real)

  /** The answers of the foreign calls. doStep(k) and writeCsv(k) are the
      answers to the k-th call (counting from 0) of fmiDoStep and of the CSV
      writer; terminate is the status fmiTerminateSlave reports. */
  datatype Oracle = Oracle(
    instantiate: JmStatus,
    initialize: FmiStatus,
    doStep: nat -> FmiStatus,
    writeCsv: nat -> bool,
    terminate: FmiStatus)

  /** One call the driver makes on the slave or on the result sink. */
  datatype Call =
    | Instantiate(instanceName: string, location: string, mimeType: string,
                  timeout: real, visible: bool, interactive: bool)
    | Initialize(tstart: real, stopTimeDefined: bool, tstop: real)
    | DoStep(t: real, h: real, newStep: bool)
    | WriteCsv(t: real)
    | Terminate
    | FreeInstance

  /** A status the driver lets pass: ok, or a warning. */
  predicate IsOkStatus(s: FmiStatus) {
    s == Ok || s == Warning
  }
}
