/** The entities of `lib/models.go` and the sentinel errors of `lib/errors.go`. */
module Operators {
  import opened Text

  datatype Value = Value(name: string, kind: string)

  /** A list of ports or settings; a nil slice is stored and read back as absent. */
  datatype Ports = Absent | Present(values: seq<Value>) {
    /** What a reader that does not tell nil from empty sees. */
    function Values(): seq<Value> { if Present? then values else [] }
  }

  datatype OperatorVersion = OperatorVersion(
    version: string,
    image: string,
    inputs: Ports,
    outputs: Ports,
    config: Ports,
    deprecated: bool)

  /** One document.  `revision` is the counter stored as `version`; time stamps are left out. */
  datatype Operator = Operator(
    name: string,
    image: string,
    description: string,
    deploymentType: string,
    cost: Option<int>,
    userId: string,
    pub: bool,
    config: Ports,
    inputs: Ports,
    outputs: Ports,
    revision: Option<int>,
    versions: seq<OperatorVersion>)

  /** Counts of the flows and pipelines that use an operator. */
  datatype UsedOperator = UsedOperator(id: string, flows: int, pipelines: int)

  datatype Error =
    | InvalidInput
    | MissingRights
    | NotFound
    | VersionNotFound
    | Conflict
    | ServerError
    | FlowRepoUnavailable
    | PipelineRegistryUnavailable
    | InUse(operators: seq<UsedOperator>, version: string)

  datatype Result<+T> = Ok(value: T) | Err(error: Error)
}
