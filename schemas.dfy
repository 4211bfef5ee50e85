/** The two record shapes exchanged between the service and the browser client. */
module Schemas {
  import opened Wrappers

  /**
   * One proposed report-cell change and its provenance. `value` is a binary
   * floating-point number in both languages; it is modelled as a real.
   */
  datatype FieldUpdate = FieldUpdate(field_id: string, value: real, rule_ref: string, reasoning: string)

  /** What the analysis service returns: always a text, optionally one update. */
  datatype AnalysisResponse = AnalysisResponse(response_text: string, data_update: Option<FieldUpdate>)
}
