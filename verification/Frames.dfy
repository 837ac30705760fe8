/** The frames a live run streams to its viewers (sentinel/api/livelab/bus.py,
    frontend/src/livelab/types.ts). */
module Frames {
  import opened Common

  /** A JSON value nothing here looks into. */
  type Json = string

  datatype Payload =
    | PhaseData(phase: string, phaseAtMs: int, detail: Option<string>, target: Option<string>,
                scenario: Option<Json>, timings: Option<Json>, window: Option<Json>)
    | LabData(services: Option<seq<Json>>, ingestAgeS: Option<real>)
    | AgentData(agentId: Option<string>, record: Json)
    | ReportData(report: Json)
    | ActionData(action: Json)
    | RecoveryData(recovery: Json)
    | ErrorData(message: Option<string>)
    | DoneData
    | ResetData
    | OtherData(name: string)

  datatype Frame = Frame(seqNo: nat, payload: Payload)

  /** Frame number i + 1 sits at position i. */
  ghost predicate Numbered(history: seq<Frame>) {
    forall i :: 0 <= i < |history| ==> history[i].seqNo == i + 1
  }
}
