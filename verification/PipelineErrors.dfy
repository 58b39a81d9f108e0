/** Pipeline errors by severity: `crates/derive/src/errors/pipeline.rs`. */
module PipelineErrors {

  datatype PipelineError =
    | Eof
    | NotEnoughData
    | MissingOrigin
    | MissingL1Data
    | SystemConfigUpdate
    | Provider
    | BadEncoding

  datatype ResetError = ReorgDetected | BadParentHash | BlockMismatchEpochReset | BlockMismatch

  datatype PipelineErrorKind =
    | Temporary(error: PipelineError)
    | Critical(error: PipelineError)
    | Reset(reset: ResetError)
}
