/** The parts of a builder query (model/v3/v3.go) that more than one component works on. */
module QueryModel {
  /** Unset is the empty string of a query that names no temporality. */
  datatype Temporality = Unset | Unspecified | Delta | Cumulative | Other(name: string)

  datatype DataSource = Metrics | Logs | Traces

  class BuilderQuery {
    const dataSource: DataSource
    const aggregateAttribute: string
    var temporality: Temporality
    var stepInterval: int

    constructor (dataSource: DataSource, aggregateAttribute: string, temporality: Temporality, stepInterval: int)
      ensures this.dataSource == dataSource && this.aggregateAttribute == aggregateAttribute
      ensures this.temporality == temporality && this.stepInterval == stepInterval
    {
      this.dataSource, this.aggregateAttribute := dataSource, aggregateAttribute;
      this.temporality, this.stepInterval := temporality, stepInterval;
    }
  }
}
