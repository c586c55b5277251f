# Goalie crash-threshold tracker, modelled in Dafny

Goalie is a polling script. It reads the crash groups of one app from the
HockeyApp crash API, page by page. It tells a HipChat room when a crash group
of the current App Store version crosses a higher occurrence threshold, and
when a tracked crash group is resolved. Between runs it keeps a cache file.
The cache maps crash-group ids to the count recorded at the last
notification. This project models the tracking engine:

- the threshold scan over the table `[20, 50, 100, 150, 200, 250, 500, 1000]`
  (module `Thresholds`);
- the escalation and resolution checks on the cache (pure steps in
  `Classifier`; in-place methods of the class `Goalie.CrashTracker`);
- the pagination loop. It counts every crash group, filters by version,
  stops with an error on a page that carries an `Error` key, sends the
  summary and saves the cache (module `Pagination` specifies it;
  `CrashTracker.CheckCrashes` runs it);
- how each notification picks its colour and alert flag (`Notifications`);
- the version lookup's "last entry with a version" loop, and the early exit
  when that version is empty (`Goalie.GetVersionNumber`, `Goalie.Run`).

The external inputs are plain data:
- the iTunes lookup result is a sequence of optional version fields;
- each HockeyApp response is a `Page` with its crash groups, its
  `total_pages` and an error flag;
- the cache file is an optional map.

Each notification sent is appended to the tracker's `events` log. Saving the
cache assigns the `cacheFile` field.

Behaviour of the code that a reader might expect to be otherwise:

- There is no separate all-clear notification. The only "all clear" is the
  green colour of the summary when the total is 0.
- The summary is sent only when the run started with tracked crash groups
  and their number changed. It is not sent whenever the run started with
  tracked crash groups.
- Only escalation and resolution notifications are sent before an error page
  raises. Nothing is saved and no summary is sent.
- The threshold table is used as given. The script calls `sort` without using
  the result, so nothing is re-sorted. Lemmas that need an ascending table
  take `ValidThresholds` as a precondition.
- A version entry counts when its field is present and neither null nor
  false; `None` stands for an absent, null or false field. Ruby treats even an
  empty string as true, so the last such field wins even when it is `""`. The
  run then stops because that version is empty.

## Model

| member | source | states |
|---|---|---|
| `Thresholds.ScanThreshold` | goalie.rb:143-148 | the front-to-back scan that keeps every level strictly below the count returns exactly `HighestCrossed`, the last such level or 0 |
| `Thresholds.HighestCrossedIsLargestBelow` | goalie.rb:143-148 | on an ascending table the scan returns the largest level strictly below the count; it returns 0 when every level is at least the count |
| `Thresholds.HighestCrossedZero` | goalie.rb:30 | on a valid table the result is 0 exactly when the count is at most every level ("less than the lowest are ignored"), and it is never negative |
| `Thresholds.EqualCountStaysBelow` | goalie.rb:145 | a count equal to level i reaches only level i-1 (or 0), because the comparison is strict |
| `Thresholds.HighestCrossedMonotone` | goalie.rb:143-159 | a larger count never reaches a lower level |
| `Thresholds.DefaultThresholdsValid` | goalie.rb:30 | the shipped table is positive and strictly ascending |
| `Thresholds.DefaultThresholdsExamples` | goalie.rb:30 | on the shipped table 10 and 20 give 0, 75 and 100 give 50, and 5000 gives 1000 |
| `Notifications.Notify` | goalie.rb:109-119 | a crash notification is red and alerting exactly when the status is 0, and green and silent otherwise |
| `Notifications.NotifyTotal` | goalie.rb:79-91 | the summary is green exactly when the total is 0, yellow otherwise, and never alerts |
| `Classifier.LevelStepEscalates` | goalie.rb:150-164 | escalation changes the state iff the new level is above the cached level; it then sets the id to the current count, keeps all other entries and appends exactly one red alerting notice |
| `Classifier.LevelStepIdempotent` | goalie.rb:138-165 | checking the same record twice notifies at most on the first call |
| `Classifier.LevelStepIgnoresRegression` | goalie.rb:150-164 | a tracked crash whose count falls to or below its cached count is neither demoted nor removed, and nothing is sent |
| `Classifier.LevelStepNeverDemotes` | goalie.rb:161-163 | escalation keeps a tracked id and never lowers its level |
| `Classifier.ResolvedStepRemoves` | goalie.rb:167-175 | resolution removes the id and appends one green silent notice iff the id is tracked and the status is not 0; otherwise nothing changes |
| `Classifier.ResolvedStepIdempotent` | goalie.rb:167-175 | resolving twice notifies once |
| `Classifier.ClassifyRecordEffect` | goalie.rb:209-216 | a record of another version changes nothing; a resolved record of the looked-up version is not in the cache afterwards; at most one notification, about this record, is appended; other ids are untouched |
| `Classifier.ClassifyRecordKeepsTracked` | goalie.rb:209-216 | on a valid table, every tracked id keeps a count above the lowest level |
| `Classifier.EscalationScenario` | goalie.rb:138-175 | on [20, 50, 100], counts 25, 60, 40 and then resolution give two escalations, no change, then one resolution and an empty cache |
| `Pagination.MaxTotal` | goalie.rb:182 | the known page count starts at 1 and is always at least 1 |
| `Pagination.MaxTotalIsLargest` | goalie.rb:221-223 | the known page count is 1 or the largest `total_pages` read, and is at least every `total_pages` read |
| `Pagination.MaxTotalGrows` | goalie.rb:221-223 | the known page count never decreases as pages are read |
| `Pagination.FetchFrom` | goalie.rb:187-225 | the fetch count ends at the first page whose known page count does not exceed it, having continued past every earlier page |
| `Pagination.FetchedIsMaxSeen` | goalie.rb:187-225 | a run fetches pages 1..n where n equals the largest `total_pages` seen on those pages (or 1) |
| `Pagination.FetchedUnique` | goalie.rb:187 | the loop's exit condition determines the number of pages fetched |
| `Pagination.FetchedAtLeast` | goalie.rb:187 | a page the loop reaches lies within the pages fetched |
| `Pagination.FirstError` | goalie.rb:203-205 | the index of the first page with an error: every earlier page has none |
| `Pagination.RaisedAt` | goalie.rb:203-205 | a run that reaches an error page stops exactly there |
| `Pagination.CompletedAt` | goalie.rb:187-225 | a loop that stops after page n without an error fetched n pages and none had an error |
| `Pagination.VisitingNext` | goalie.rb:218-224 | one error-free page adds its crash groups to the total, raises the page count to its `total_pages` when larger, and moves on one page |
| `Pagination.ClassifyPagesNotifiesMatching` | goalie.rb:209-216 | over any pages, only notices about crash groups of the looked-up version are appended, each coloured by `Notify` |
| `Pagination.ClassifyPagesKeepsTracked` | goalie.rb:30 | over any pages, a cache whose ids all crossed the lowest level keeps that property |
| `Pagination.ClassifyPagesKeepsUnseen` | goalie.rb:209-216 | an id that appears on no page with the looked-up version keeps its entry |
| `Goalie.LoadCache` | goalie.rb:43-46 | no cache file gives an empty cache; a saved file gives its contents |
| `Goalie.CrashTracker.constructor` | goalie.rb:43-46 | a tracker starts from the loaded cache with nothing sent |
| `Goalie.CrashTracker.CheckLevel` | goalie.rb:138-165 | runs both scans and updates the cache and log in place exactly as `LevelStep` says |
| `Goalie.CrashTracker.CheckResolved` | goalie.rb:167-175 | updates the cache and log in place exactly as `ResolvedStep` says |
| `Goalie.CrashTracker.ClassifyPage` | goalie.rb:209-216 | the record loop of one page leaves the state `ClassifyRecords` gives |
| `Goalie.CrashTracker.CheckCrashes` | goalie.rb:177-234 | it fetches `Fetched(pages)` pages. On the first error page it returns `Raised` with the file unchanged and no summary. Otherwise the state is the classification of all fetched pages, the total counts every crash group, the summary is appended iff `SummaryDue`, and the cache is saved |
| `Goalie.GetVersionNumber` | goalie.rb:61-68 | the loop returns the last present version field, or "" |
| `Goalie.LatestVersionIsLastListed` | goalie.rb:62-68 | the looked-up version is the value of the last entry that has one, and "" when none has |
| `Goalie.Run` | goalie.rb:236-243 | it stops with nothing sent and nothing saved iff the version is empty. A raised run stops at the first error page, saves nothing, and sends only the crash notices of the pages before it. A completed run reports `Fetched(pages)` pages and the total of all their crash groups, saves the cache those pages give from the loaded one, and sends their crash notices followed by the summary iff `SummaryDue`. Every crash notice is about the looked-up version |
| `AsWritten.AbsentCacheFileRaises` | goalie.rb:43 | without a cache file, the resolution check raises on the first crash group of the looked-up version |
| `AsWritten.SavedCacheFileAgrees` | goalie.rb:167-175 | with a cache file, the check as written agrees with `ResolvedStep` |
| `AsWritten.AbsentCacheFileStartsEmpty` | goalie.rb:43-46 | the corrected start is an empty cache, on which resolution changes nothing |

## Left out

- HTTP traffic to the iTunes lookup, the crash API and the chat room is not
  modelled. Responses arrive as data, and each notification is appended to
  `events`.
- JSON and YAML parsing, and the write of the cache file, are not modelled.
  Saving assigns the map to `cacheFile`. The YAML round trip belongs to the
  library.
- The message text, the random image and the `message_format` field are not
  modelled. The format is always plain text; only the colour and the alert
  flag are kept.
- `puts` logging and the settings file (app ids, tokens) are not modelled.
- Goalie.CrashTracker.CheckCrashes: requires that page 1 exists and that no
  page announces more pages than the sequence holds (`PagesBounded`). The
  service supplies every page it announces; a fetch past the end is not
  modelled.
- A failed HTTP call is not modelled. The code never catches one, so a
  network exception during a page fetch (goalie.rb:191-195) or a notification
  send (goalie.rb:99, goalie.rb:134) ends the run before the cache is written;
  notifications already sent stay sent. In the model every fetch and send
  succeeds.
- When a page raises, the exception ends the process. The model returns
  `Raised` instead.
- Field types (a missing `total_pages`, a non-integer status) are not
  modelled. Records are typed.

## Findings

| source | as written | input that shows it | evidently intended | confidence | as-written member | corrected member |
|---|---|---|---|---|---|---|
| goalie.rb:43-46 | with no saved cache file the cache starts as the empty string, so the key test of the resolution check (goalie.rb:169) raises NoMethodError | no crash_cache.yml, and a page holding a crash group whose version equals the looked-up version | start from an empty hash, as the later hash operations assume | high; not executed | `AsWritten.AbsentCacheFileRaises` | `Goalie.LoadCache` |
