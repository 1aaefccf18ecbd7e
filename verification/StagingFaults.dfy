/** What staging a record and writing the header that publishes it may meet. */
module StagingFaults {
  datatype StageAns = Staged | StageFailed | StageLatched

  datatype HeaderAns = Wrote | Refused | Torn
}
