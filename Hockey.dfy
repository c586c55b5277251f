/** The data the tracker receives from the crash-reporting service and keeps
    between runs. */
module Hockey {

  /** Crash-group identifiers as the service reports them. */
  type CrashId = int

  /** One crash group of a `crash_reasons` page. Only the fields the tracker
      decides on are kept: the identifier, the occurrence count
      (`number_of_crashes`), the status (0 means open, anything else
      resolved) and the `bundle_short_version` used for filtering. */
  datatype CrashRecord = CrashRecord(
    id: CrashId,
    count: int,
    status: int,
    shortVersion: string)

  /** One response of the paginated crash API: its crash groups, its
      `total_pages`, and whether the body carried an `Error` key. */
  datatype Page = Page(records: seq<CrashRecord>, totalPages: int, error: bool)

  /** The crash cache: crash-group id to the count recorded at the last
      notification about it. */
  type Cache = map<CrashId, int>
}
