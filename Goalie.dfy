/** The tracker itself: the crash cache and the notification log as fields of
    one object, updated in place by the per-crash checks and the page loop,
    and the run that looks up the released version first. */
module Goalie {
  import opened Wrappers
  import opened Hockey
  import opened Notifications
  import opened Thresholds
  import opened Classifier
  import opened Pagination

  /** How a run ends: without a version nothing is done; a page with an
      `Error` key raises "web service error"; otherwise all pages were read. */
  datatype Outcome =
    | NoVersion
    | Completed(pagesFetched: nat, totalGroups: int)
    | Raised(page: nat)

  /** The cache a run starts from: the saved file, or an empty cache when
      there is none. */
  function LoadCache(file: Option<Cache>): (c: Cache)
    ensures file.None? ==> c == map[]
    ensures file.Some? ==> c == file.value
  {
    match file
    case None => map[]
    case Some(saved) => saved
  }

  class CrashTracker {
    /** The severity levels. */
    const thresholds: seq<int>
    /** The released version whose crash groups are classified. */
    const version: string
    /** Crash-group id to the count recorded at its last notification. */
    var cache: Cache
    /** The notifications sent to the chat room, in order. */
    var events: seq<Event>
    /** The contents of the saved cache file. */
    var cacheFile: Option<Cache>

    constructor (thresholds: seq<int>, version: string, cacheFile: Option<Cache>)
      ensures this.thresholds == thresholds && this.version == version
      ensures this.cacheFile == cacheFile
      ensures cache == LoadCache(cacheFile) && events == []
    {
      this.thresholds := thresholds;
      this.version := version;
      this.cacheFile := cacheFile;
      cache := LoadCache(cacheFile);
      events := [];
    }

    /** Escalation: notify and record the count when the crash group's level
        rose since the recorded count. */
    method CheckLevel(crash: CrashRecord)
      modifies this`cache, this`events
      ensures State(cache, events) == LevelStep(thresholds, old(State(cache, events)), crash)
    {
      var newThreshold := ScanThreshold(thresholds, crash.count);
      var oldCount := 0;
      if crash.id in cache {
        oldCount := cache[crash.id];
      }
      var oldThreshold := ScanThreshold(thresholds, oldCount);
      if newThreshold > oldThreshold {
        cache := cache[crash.id := crash.count];
        events := events + [Notify(crash)];
      }
    }

    /** Resolution: forget and announce a tracked crash group that is no longer
        open. */
    method CheckResolved(crash: CrashRecord)
      modifies this`cache, this`events
      ensures State(cache, events) == ResolvedStep(old(State(cache, events)), crash)
    {
      if crash.id in cache {
        if crash.status != 0 {
          cache := cache - {crash.id};
          events := events + [Notify(crash)];
        }
      }
    }

    /** The crash groups of one page, in order: those of the looked-up version
        are checked for resolution and, when open, for escalation. */
    method ClassifyPage(records: seq<CrashRecord>)
      modifies this`cache, this`events
      ensures State(cache, events) == ClassifyRecords(thresholds, version, old(State(cache, events)), records)
    {
      ghost var start := State(cache, events);
      var i := 0;
      while i < |records|
        invariant 0 <= i <= |records|
        invariant State(cache, events) == ClassifyRecords(thresholds, version, start, records[..i])
      {
        var crash := records[i];
        if crash.shortVersion == version {
          CheckResolved(crash);
          if crash.status == 0 {
            CheckLevel(crash);
          }
        }
        ClassifyRecordsNext(thresholds, version, start, records, i);
        i := i + 1;
      }
      assert records[..|records|] == records;
    }

    /** The page loop. It fetches pages 1, 2, ... while the page number is at
        most the largest `total_pages` seen, classifies each page's crash
        groups and counts all of them. A page with an error raises before
        anything is saved or summarised. Otherwise the summary is sent when
        the run started with tracked crash groups and their number changed,
        and the cache is saved. */
    method CheckCrashes(pages: seq<Page>) returns (outcome: Outcome)
      requires PagesBounded(pages)
      modifies this`cache, this`events, this`cacheFile
      ensures var n := Fetched(pages);
        var e := FirstError(pages[..n]);
        var s := ClassifyPages(thresholds, version, old(State(cache, events)), pages[..e]);
        cache == s.cache &&
        (e < n ==>
           outcome == Raised(e + 1) && events == s.events && cacheFile == old(cacheFile)) &&
        (e == n ==>
           outcome == Completed(n, TotalGroups(pages[..n])) && cacheFile == Some(cache) &&
           events == s.events + (if SummaryDue(|old(cache)|, |cache|)
                                 then [NotifyTotal(TotalGroups(pages[..n]))] else []))
    {
      var currentPage := 1;
      var totalPages := 1;
      var totalGroups := 0;
      var startingCount := |cache|;
      ghost var start := State(cache, events);

      while currentPage <= totalPages
        invariant Visiting(pages, currentPage, totalPages, totalGroups)
        invariant State(cache, events) == ClassifyPages(thresholds, version, start, pages[..currentPage - 1])
        invariant cacheFile == old(cacheFile)
        decreases |pages| + 1 - currentPage
      {
        var page := pages[currentPage - 1];
        if page.error {
          RaisedAt(pages, currentPage);
          return Raised(currentPage);
        }
        ClassifyPagesNext(thresholds, version, start, pages, currentPage - 1);
        VisitingNext(pages, currentPage, totalPages, totalGroups);
        ClassifyPage(page.records);
        totalGroups := totalGroups + |page.records|;
        if page.totalPages > totalPages {
          totalPages := page.totalPages;
        }
        currentPage := currentPage + 1;
      }

      CompletedAt(pages, currentPage - 1);
      if startingCount > 0 && startingCount != |cache| {
        events := events + [NotifyTotal(totalGroups)];
      }
      cacheFile := Some(cache);
      outcome := Completed(currentPage - 1, totalGroups);
    }
  }

  /** The released version: the value of the last lookup entry that has a
      version field, or "" when none has. */
  function LatestVersion(entries: seq<Option<string>>): string {
    if |entries| == 0 then ""
    else if entries[|entries| - 1].Some? then entries[|entries| - 1].value
    else LatestVersion(entries[..|entries| - 1])
  }

  /** The version lookup's loop: every entry with a version overwrites the
      previous one. */
  method GetVersionNumber(entries: seq<Option<string>>) returns (version: string)
    ensures version == LatestVersion(entries)
  {
    version := "";
    var i := 0;
    while i < |entries|
      invariant 0 <= i <= |entries|
      invariant version == LatestVersion(entries[..i])
    {
      assert entries[..i + 1][..i] == entries[..i];
      if entries[i].Some? {
        version := entries[i].value;
      }
      i := i + 1;
    }
    assert entries[..|entries|] == entries;
  }

  /** The looked-up version is that of the last entry carrying one, and ""
      when no entry carries one. */
  lemma {:induction false} LatestVersionIsLastListed(entries: seq<Option<string>>)
    ensures (forall i :: 0 <= i < |entries| ==> entries[i].None?) ==> LatestVersion(entries) == ""
    ensures forall k :: 0 <= k < |entries| && entries[k].Some? &&
                        (forall j :: k < j < |entries| ==> entries[j].None?) ==>
                        LatestVersion(entries) == entries[k].value
  {
    if |entries| > 0 {
      var n := |entries| - 1;
      LatestVersionIsLastListed(entries[..n]);
      assert forall i :: 0 <= i < n ==> entries[..n][i] == entries[i];
    }
  }

  /** One invocation: look up the version and stop when it is empty; else
      start from the saved cache (empty without a file), run the page loop and
      hand back what was sent and what the cache file holds afterwards. */
  method Run(thresholds: seq<int>, entries: seq<Option<string>>, cacheFile: Option<Cache>, pages: seq<Page>)
    returns (outcome: Outcome, sent: seq<Event>, savedFile: Option<Cache>)
    requires PagesBounded(pages)
    ensures outcome.NoVersion? <==> |LatestVersion(entries)| == 0
    ensures outcome.NoVersion? ==> sent == [] && savedFile == cacheFile
    ensures outcome.Raised? ==>
              savedFile == cacheFile && forall i :: 0 <= i < |sent| ==> sent[i].CrashNotice?
    ensures outcome.Completed? ==>
              savedFile.Some? &&
              ((|sent| > 0 && sent[|sent| - 1].TotalNotice?) <==>
                 SummaryDue(|LoadCache(cacheFile)|, |savedFile.value|)) &&
              (|sent| > 0 && sent[|sent| - 1].TotalNotice? ==>
                 sent[|sent| - 1] == NotifyTotal(outcome.totalGroups))
    ensures forall i :: 0 <= i < |sent| && sent[i].CrashNotice? ==>
              sent[i].crash.shortVersion == LatestVersion(entries) && sent[i] == Notify(sent[i].crash)
    ensures !outcome.NoVersion? ==>
              var n := Fetched(pages);
              var e := FirstError(pages[..n]);
              var s := ClassifyPages(thresholds, LatestVersion(entries), State(LoadCache(cacheFile), []), pages[..e]);
              (e < n ==> outcome == Raised(e + 1) && sent == s.events) &&
              (e == n ==>
                 outcome == Completed(n, TotalGroups(pages[..n])) && savedFile == Some(s.cache) &&
                 sent == s.events + (if SummaryDue(|LoadCache(cacheFile)|, |s.cache|)
                                     then [NotifyTotal(TotalGroups(pages[..n]))] else []))
  {
    var version := GetVersionNumber(entries);
    if |version| == 0 {
      return NoVersion, [], cacheFile;
    }
    var tracker := new CrashTracker(thresholds, version, cacheFile);
    outcome := tracker.CheckCrashes(pages);
    sent, savedFile := tracker.events, tracker.cacheFile;

    var n := Fetched(pages);
    var e := FirstError(pages[..n]);
    ClassifyPagesNotifiesMatching(thresholds, version, State(LoadCache(cacheFile), []), pages[..e]);
  }
}
