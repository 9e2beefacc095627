/** How a query request ended, as the query engine reports it. */
module QueryOutcomes {
  datatype Disposition = Executed | Validated | Reused | Cancelled
}
