/** The page loop of a run, stated as functions of the pages the service
    returns: how many pages are fetched, where an error stops the run, how
    many crash groups are counted, and what the classification of the fetched
    pages does to the cache and the notification log. */
module Pagination {
  import opened Hockey
  import opened Notifications
  import opened Thresholds
  import opened Classifier

  /** The service never announces more pages than it serves, and it always
      serves page 1. */
  predicate PagesBounded(pages: seq<Page>) {
    |pages| >= 1 && forall i :: 0 <= i < |pages| ==> pages[i].totalPages <= |pages|
  }

  /** The page count after reading `ps`: it starts at 1 and only ever rises to
      a larger `total_pages`. */
  function MaxTotal(ps: seq<Page>): (r: int)
    ensures r >= 1
  {
    if |ps| == 0 then 1
    else
      var m := MaxTotal(ps[..|ps| - 1]);
      if ps[|ps| - 1].totalPages > m then ps[|ps| - 1].totalPages else m
  }

  /** Every page before page `n` (1-based) was followed by another fetch: after
      reading pages 1..j the known page count was still above j. */
  ghost predicate Continues(pages: seq<Page>, n: nat)
    requires n <= |pages|
  {
    forall j :: 1 <= j < n ==> j < MaxTotal(pages[..j])
  }

  /** None of the first n pages carries an error. */
  predicate NoErrorBefore(pages: seq<Page>, n: nat)
    requires n <= |pages|
  {
    forall i :: 0 <= i < n ==> !pages[i].error
  }

  /** The number of pages fetched, counting on from page `k`. */
  function FetchFrom(pages: seq<Page>, k: nat): (r: nat)
    requires PagesBounded(pages) && 1 <= k <= |pages|
    ensures k <= r <= |pages|
    ensures MaxTotal(pages[..r]) <= r
    ensures forall j :: k <= j < r ==> j < MaxTotal(pages[..j])
    decreases |pages| - k
  {
    if MaxTotal(pages[..k]) <= k then k
    else
      assert k < |pages| by {
        MaxTotalIsLargest(pages[..k]);
      }
      FetchFrom(pages, k + 1)
  }

  /** The number of pages a run fetches when no page carries an error. */
  function Fetched(pages: seq<Page>): nat
    requires PagesBounded(pages)
  {
    FetchFrom(pages, 1)
  }

  /** The index of the first page carrying an error, or |ps| if none does. */
  function FirstError(ps: seq<Page>): (r: nat)
    ensures r <= |ps|
    ensures forall i :: 0 <= i < r ==> !ps[i].error
    ensures r < |ps| ==> ps[r].error
  {
    if |ps| == 0 then 0
    else
      var e := FirstError(ps[..|ps| - 1]);
      if e < |ps| - 1 then e
      else if ps[|ps| - 1].error then |ps| - 1
      else |ps|
  }

  /** The number of crash groups on the pages, whatever their version. */
  function TotalGroups(ps: seq<Page>): int {
    if |ps| == 0 then 0
    else TotalGroups(ps[..|ps| - 1]) + |ps[|ps| - 1].records|
  }

  /** Classifying the crash groups of one page, in order. */
  function ClassifyRecords(t: seq<int>, version: string, s: State, rs: seq<CrashRecord>): State {
    if |rs| == 0 then s
    else ClassifyRecord(t, version, ClassifyRecords(t, version, s, rs[..|rs| - 1]), rs[|rs| - 1])
  }

  /** Classifying the crash groups of the pages, page by page. */
  function ClassifyPages(t: seq<int>, version: string, s: State, ps: seq<Page>): State {
    if |ps| == 0 then s
    else ClassifyRecords(t, version, ClassifyPages(t, version, s, ps[..|ps| - 1]), ps[|ps| - 1].records)
  }

  /** The known page count never decreases as more pages are read. */
  lemma {:induction false} MaxTotalGrows(ps: seq<Page>, i: nat, j: nat)
    requires i <= j <= |ps|
    ensures MaxTotal(ps[..i]) <= MaxTotal(ps[..j])
  {
    if i < j {
      MaxTotalGrows(ps, i, j - 1);
      assert ps[..j][..j - 1] == ps[..j - 1];
    }
  }

  /** The run fetches pages 1..n where n is the largest `total_pages` seen on
      those pages (or 1). */
  lemma FetchedIsMaxSeen(pages: seq<Page>)
    requires PagesBounded(pages)
    ensures var n := Fetched(pages);
      1 <= n && n == MaxTotal(pages[..n]) && Continues(pages, n)
  {
    var n := Fetched(pages);
    if n > 1 {
      MaxTotalGrows(pages, n - 1, n);
    }
  }

  /** The loop's exit condition determines the number of pages fetched. */
  lemma FetchedUnique(pages: seq<Page>, n: nat)
    requires PagesBounded(pages) && 1 <= n <= |pages|
    requires Continues(pages, n) && MaxTotal(pages[..n]) <= n
    ensures Fetched(pages) == n
  {
  }

  /** A page the loop reaches is within the pages fetched. */
  lemma FetchedAtLeast(pages: seq<Page>, c: nat)
    requires PagesBounded(pages) && 1 <= c <= |pages|
    requires Continues(pages, c)
    ensures c <= Fetched(pages)
  {
  }

  /** The known page count is 1 or the largest `total_pages` read so far. */
  lemma {:induction false} MaxTotalIsLargest(ps: seq<Page>)
    ensures forall i :: 0 <= i < |ps| ==> ps[i].totalPages <= MaxTotal(ps)
    ensures MaxTotal(ps) == 1 || exists i :: 0 <= i < |ps| && ps[i].totalPages == MaxTotal(ps)
  {
    if |ps| > 0 {
      var n := |ps| - 1;
      MaxTotalIsLargest(ps[..n]);
      assert forall i :: 0 <= i < n ==> ps[..n][i] == ps[i];
      if MaxTotal(ps) != 1 && ps[n].totalPages != MaxTotal(ps) {
        var i :| 0 <= i < n && ps[..n][i].totalPages == MaxTotal(ps[..n]);
        assert ps[i].totalPages == MaxTotal(ps);
      }
    }
  }

  /** The loop goes on to page c + 1 when the known page count exceeds c. */
  lemma ContinuesNext(pages: seq<Page>, c: nat)
    requires 1 <= c <= |pages| && Continues(pages, c - 1)
    requires c <= MaxTotal(pages[..c - 1])
    ensures Continues(pages, c)
  {
  }

  /** A run that reaches page c, which carries an error, fails there. */
  lemma RaisedAt(pages: seq<Page>, c: nat)
    requires PagesBounded(pages) && 1 <= c <= |pages|
    requires Continues(pages, c - 1) && c <= MaxTotal(pages[..c - 1])
    requires NoErrorBefore(pages, c - 1) && pages[c - 1].error
    ensures c <= Fetched(pages) && FirstError(pages[..Fetched(pages)]) == c - 1
  {
    ContinuesNext(pages, c);
    FetchedAtLeast(pages, c);
    var n := Fetched(pages);
    assert pages[..n][c - 1].error;
  }

  /** A run whose loop stops after page n without an error read pages 1..n. */
  lemma CompletedAt(pages: seq<Page>, n: nat)
    requires PagesBounded(pages) && 1 <= n <= |pages|
    requires Continues(pages, n) && MaxTotal(pages[..n]) <= n
    requires NoErrorBefore(pages, n)
    ensures Fetched(pages) == n && FirstError(pages[..n]) == n
  {
    FetchedUnique(pages, n);
  }

  /** Reading one more page raises the known page count to its `total_pages`
      when that is larger. */
  lemma MaxTotalNext(ps: seq<Page>, n: nat)
    requires n < |ps|
    ensures MaxTotal(ps[..n + 1]) ==
              if ps[n].totalPages > MaxTotal(ps[..n]) then ps[n].totalPages else MaxTotal(ps[..n])
  {
    assert ps[..n + 1][..n] == ps[..n];
  }

  /** What the page loop knows before fetching page c: the page count from
      pages 1..c-1, that each of them led to another fetch, that none carried
      an error, and the number of crash groups they held. */
  ghost predicate Visiting(pages: seq<Page>, c: nat, totalPages: int, totalGroups: int) {
    1 <= c <= totalPages + 1 && totalPages <= |pages| &&
    totalPages == MaxTotal(pages[..c - 1]) &&
    Continues(pages, c - 1) && NoErrorBefore(pages, c - 1) &&
    totalGroups == TotalGroups(pages[..c - 1])
  }

  /** Fetching a page without an error moves the loop on by one page. */
  lemma VisitingNext(pages: seq<Page>, c: nat, totalPages: int, totalGroups: int)
    requires PagesBounded(pages) && Visiting(pages, c, totalPages, totalGroups)
    requires c <= totalPages && !pages[c - 1].error
    ensures Visiting(pages, c + 1,
                     if pages[c - 1].totalPages > totalPages then pages[c - 1].totalPages else totalPages,
                     totalGroups + |pages[c - 1].records|)
  {
    TotalGroupsNext(pages, c - 1);
    ContinuesNext(pages, c);
    MaxTotalNext(pages, c - 1);
  }

  /** The crash-group count of a prefix grows by the size of the next page. */
  lemma TotalGroupsNext(ps: seq<Page>, n: nat)
    requires n < |ps|
    ensures TotalGroups(ps[..n + 1]) == TotalGroups(ps[..n]) + |ps[n].records|
  {
    assert ps[..n + 1][..n] == ps[..n];
  }

  /** Classification of a prefix extends by the next page. */
  lemma ClassifyPagesNext(t: seq<int>, version: string, s: State, ps: seq<Page>, n: nat)
    requires n < |ps|
    ensures ClassifyPages(t, version, s, ps[..n + 1])
         == ClassifyRecords(t, version, ClassifyPages(t, version, s, ps[..n]), ps[n].records)
  {
    assert ps[..n + 1][..n] == ps[..n];
  }

  /** Classification of a prefix of a page extends by the next record. */
  lemma ClassifyRecordsNext(t: seq<int>, version: string, s: State, rs: seq<CrashRecord>, n: nat)
    requires n < |rs|
    ensures ClassifyRecords(t, version, s, rs[..n + 1])
         == ClassifyRecord(t, version, ClassifyRecords(t, version, s, rs[..n]), rs[n])
  {
    assert rs[..n + 1][..n] == rs[..n];
  }

  /** The notifications a classification sends are appended to the log, and
      each is about a crash group of the looked-up version: open ones red and
      alerting, resolved ones green and silent. */
  ghost predicate NotifiesMatching(version: string, s: State, s': State) {
    Extends(s, s') &&
    forall i :: |s.events| <= i < |s'.events| ==>
      s'.events[i].CrashNotice? && s'.events[i].crash.shortVersion == version &&
      s'.events[i] == Notify(s'.events[i].crash)
  }

  lemma NotifiesMatchingTrans(version: string, s1: State, s2: State, s3: State)
    requires NotifiesMatching(version, s1, s2) && NotifiesMatching(version, s2, s3)
    ensures NotifiesMatching(version, s1, s3)
  {
    assert s3.events[..|s2.events|][..|s1.events|] == s3.events[..|s1.events|];
  }

  lemma {:induction false} ClassifyRecordsNotifiesMatching(t: seq<int>, version: string, s: State, rs: seq<CrashRecord>)
    ensures NotifiesMatching(version, s, ClassifyRecords(t, version, s, rs))
  {
    if |rs| > 0 {
      var mid := ClassifyRecords(t, version, s, rs[..|rs| - 1]);
      var crash := rs[|rs| - 1];
      ClassifyRecordsNotifiesMatching(t, version, s, rs[..|rs| - 1]);
      ClassifyRecordEffect(t, version, mid, crash);
      NotifiesMatchingTrans(version, s, mid, ClassifyRecord(t, version, mid, crash));
    }
  }

  /** Over a whole run: only crash notices about the looked-up version are
      sent, after the ones already sent. */
  lemma {:induction false} ClassifyPagesNotifiesMatching(t: seq<int>, version: string, s: State, ps: seq<Page>)
    ensures NotifiesMatching(version, s, ClassifyPages(t, version, s, ps))
  {
    if |ps| > 0 {
      var mid := ClassifyPages(t, version, s, ps[..|ps| - 1]);
      ClassifyPagesNotifiesMatching(t, version, s, ps[..|ps| - 1]);
      ClassifyRecordsNotifiesMatching(t, version, mid, ps[|ps| - 1].records);
      NotifiesMatchingTrans(version, s, mid, ClassifyPages(t, version, s, ps));
    }
  }

  lemma {:induction false} ClassifyRecordsKeepsTracked(t: seq<int>, version: string, s: State, rs: seq<CrashRecord>)
    requires ValidThresholds(t) && Tracked(t, s.cache)
    ensures Tracked(t, ClassifyRecords(t, version, s, rs).cache)
  {
    if |rs| > 0 {
      ClassifyRecordsKeepsTracked(t, version, s, rs[..|rs| - 1]);
      ClassifyRecordKeepsTracked(t, version, ClassifyRecords(t, version, s, rs[..|rs| - 1]), rs[|rs| - 1]);
    }
  }

  /** Over a whole run: a cache whose crash groups have all crossed the lowest
      level keeps that property; counts below the lowest level are ignored. */
  lemma {:induction false} ClassifyPagesKeepsTracked(t: seq<int>, version: string, s: State, ps: seq<Page>)
    requires ValidThresholds(t) && Tracked(t, s.cache)
    ensures Tracked(t, ClassifyPages(t, version, s, ps).cache)
  {
    if |ps| > 0 {
      ClassifyPagesKeepsTracked(t, version, s, ps[..|ps| - 1]);
      ClassifyRecordsKeepsTracked(t, version, ClassifyPages(t, version, s, ps[..|ps| - 1]), ps[|ps| - 1].records);
    }
  }

  /** Over a whole run: entries of crash groups that appear on no fetched page
      of the looked-up version are left as they were. */
  lemma {:induction false} ClassifyPagesKeepsUnseen(t: seq<int>, version: string, s: State, ps: seq<Page>, k: CrashId)
    requires forall i, j :: 0 <= i < |ps| && 0 <= j < |ps[i].records| ==>
               ps[i].records[j].id != k || ps[i].records[j].shortVersion != version
    ensures var s' := ClassifyPages(t, version, s, ps);
      (k in s'.cache <==> k in s.cache) && (k in s.cache ==> s'.cache[k] == s.cache[k])
  {
    if |ps| > 0 {
      var n := |ps| - 1;
      ClassifyPagesKeepsUnseen(t, version, s, ps[..n], k);
      ClassifyRecordsKeepsUnseen(t, version, ClassifyPages(t, version, s, ps[..n]), ps[n].records, k);
    }
  }

  lemma {:induction false} ClassifyRecordsKeepsUnseen(t: seq<int>, version: string, s: State, rs: seq<CrashRecord>, k: CrashId)
    requires forall j :: 0 <= j < |rs| ==> rs[j].id != k || rs[j].shortVersion != version
    ensures var s' := ClassifyRecords(t, version, s, rs);
      (k in s'.cache <==> k in s.cache) && (k in s.cache ==> s'.cache[k] == s.cache[k])
  {
    if |rs| > 0 {
      var n := |rs| - 1;
      ClassifyRecordsKeepsUnseen(t, version, s, rs[..n], k);
      ClassifyRecordEffect(t, version, ClassifyRecords(t, version, s, rs[..n]), rs[n]);
    }
  }
}
