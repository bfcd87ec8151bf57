/** The import's configuration and its aggregate result. */
module Dtos {
  import opened ImportStatuses

  /** Flush threshold, persistence switch and the lenient-GTIN override. */
  datatype ImportOptions = ImportOptions(batchSize: int, dryRun: bool, skipGtinValidation: bool)

  /** The constructor's defaults: batches of 100, persisting, GTIN rule
      enforced. */
  function DefaultOptions(): ImportOptions {
    ImportOptions(100, false, false)
  }

  /** The outcome of one completed run; errors maps a line number to the
      messages recorded for that line. */
  datatype ImportResult = ImportResult(
    status: ImportStatus,
    processed: nat,
    imported: nat,
    skipped: nat,
    errors: map<int, seq<string>>)
}
