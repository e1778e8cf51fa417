/** prowlerSource: the newest report in a bucket, downloaded only when its key
    is new, and what that cache is worth: the same answers as reading the
    report every time. */
module Prowler {
  import opened Text
  import opened Clock
  import opened Findings
  import opened Severity
  import opened Filters

  // ---------------------------------------------------------------- newestReport

  type Item = (string, Time)

  /** One answer to a list request. */
  datatype PageReply = PageError | Page(contents: seq<Item>, truncated: bool, token: string)

  predicate More(p: PageReply) {
    p.Page? && p.truncated && p.token != ""
  }

  /** A finite chain: every page but the last asks for another, the last does not. */
  ghost predicate Chain(pages: seq<PageReply>) {
    && pages != [] && !More(pages[|pages| - 1])
    && forall i | 0 <= i < |pages| - 1 :: More(pages[i])
  }

  /** The whole listing, or None if the last request failed. */
  function Listing(pages: seq<PageReply>): Option<seq<Item>> {
    if pages == [] then Some([])
    else if pages[|pages| - 1].PageError? || Listing(pages[..|pages| - 1]).None? then None
    else Some(Listing(pages[..|pages| - 1]).value + pages[|pages| - 1].contents)
  }

  const SUFFIX := ".ocsf.json"

  predicate IsReport(key: string) {
    |key| >= |SUFFIX| && key[|key| - |SUFFIX|..] == SUFFIX
  }

  /** A report is what has this ending. */
  lemma IsReportIff(key: string)
    ensures IsReport(key) <==> exists n: nat :: n <= |key| && key[n..] == ".ocsf.json"
  {
    if IsReport(key) {
      assert key[|key| - |SUFFIX|..] == ".ocsf.json";
    }
  }

  /** The first report of the latest time, among those written after the zero time. */
  ghost predicate IsNewest(report: string -> bool, items: seq<Item>, i: nat) {
    && i < |items| && report(items[i].0) && items[i].1 > 0
    && (forall j | 0 <= j < |items| && report(items[j].0) :: items[j].1 <= items[i].1)
    && (forall j | 0 <= j < i && report(items[j].0) :: items[j].1 < items[i].1)
  }

  ghost predicate NoReport(report: string -> bool, items: seq<Item>) {
    forall j | 0 <= j < |items| && report(items[j].0) :: items[j].1 <= 0
  }

  /** The scan over a listing: the best so far is replaced by a strictly later report. */
  function Newest(report: string -> bool, items: seq<Item>): Item {
    if items == [] then ("", 0) else
      var best, o := Newest(report, items[..|items| - 1]), items[|items| - 1];
      if report(o.0) && o.1 > best.1 then o else best
  }

  lemma {:induction false} NewestIsFirstLatest(report: string -> bool, items: seq<Item>)
    ensures NoReport(report, items) ==> Newest(report, items) == ("", 0)
    ensures !NoReport(report, items) ==> exists i: nat :: IsNewest(report, items, i) && items[i] == Newest(report, items)
    ensures Newest(report, items).1 >= 0
  {
    if items != [] {
      var front, o := items[..|items| - 1], items[|items| - 1];
      NewestIsFirstLatest(report, front);
      FrontLast(items);
      if !(report(o.0) && o.1 > Newest(report, front).1) && !NoReport(report, front) {
        var i: nat :| IsNewest(report, front, i) && front[i] == Newest(report, front);
        assert items[i] == front[i];
      }
    }
  }

  lemma NewestAppend(report: string -> bool, a: seq<Item>, b: seq<Item>, i: nat)
    requires i < |b|
    ensures var best, o := Newest(report, a + b[..i]), b[i];
            Newest(report, a + b[..i + 1]) == if report(o.0) && o.1 > best.1 then o else best
  {
    assert (a + b[..i + 1])[..|a| + i] == a + b[..i];
  }

  /** newestReport: pages through the listing, keeping `newest` and `newestAt`. */
  method NewestReport(pages: seq<PageReply>) returns (r: Option<Item>)
    requires Chain(pages)
    ensures r.Some? <==> Listing(pages).Some? && !NoReport(IsReport, Listing(pages).value)
    ensures r.Some? ==> exists i: nat :: IsNewest(IsReport, Listing(pages).value, i) && Listing(pages).value[i] == r.value
    ensures r.Some? ==> r.value == Newest(IsReport, Listing(pages).value) && r.value.0 != ""
  {
    var newest, newestAt := "", 0;
    var n := 0;
    while true
      invariant n < |pages| && Listing(pages[..n]).Some?
      invariant (newest, newestAt) == Newest(IsReport, Listing(pages[..n]).value)
      decreases |pages| - n
    {
      var page := pages[n];
      assert pages[..n + 1][..n] == pages[..n];
      if page.PageError? {
        assert pages[..n + 1] == pages;
        return None;
      }
      ghost var before := Listing(pages[..n]).value;
      assert before + page.contents[..0] == before;
      for i := 0 to |page.contents|
        invariant (newest, newestAt) == Newest(IsReport, before + page.contents[..i])
      {
        var (key, at) := page.contents[i];
        NewestAppend(IsReport, before, page.contents, i);
        if IsReport(key) && at > newestAt {
          newest, newestAt := key, at;
        }
      }
      assert page.contents[..|page.contents|] == page.contents;
      n := n + 1;
      if !page.truncated || page.token == "" {
        break;
      }
    }
    assert pages[..n] == pages;
    NewestIsFirstLatest(IsReport, Listing(pages).value);
    if newest == "" {
      return None;
    }
    return Some((newest, newestAt));
  }

  // ---------------------------------------------------------------- parseOCSF

  datatype OcsfFinding = OcsfFinding(statusCode: string, status: string, severity: string, eventCode: string)

  /** A document: not an array of findings, or one. */
  type Document = Option<seq<OcsfFinding>>

  predicate IsOpen(f: OcsfFinding) {
    f.statusCode == "FAIL" && f.status != "Suppressed"
  }

  function AsFinding(f: OcsfFinding): Finding {
    Finding(NormalizeSeverity(f.severity), f.eventCode, 0)
  }

  /** The open findings, in the report's order, without a first-seen time. */
  function OpenFindings(fs: seq<OcsfFinding>): seq<Finding> {
    FilterMap(IsOpen, AsFinding, fs)
  }

  method ParseOcsf(doc: Document) returns (r: Option<seq<Finding>>)
    ensures r == if doc.Some? then Some(OpenFindings(doc.value)) else None
  {
    if doc.None? {
      return None;
    }
    var out: seq<Finding> := [];
    for i := 0 to |doc.value|
      invariant out == OpenFindings(doc.value[..i])
    {
      var f := doc.value[i];
      assert doc.value[..i + 1] == doc.value[..i] + [f];
      FilterMapSnoc(IsOpen, AsFinding, doc.value[..i], f);
      if f.statusCode != "FAIL" || f.status == "Suppressed" {
        continue;
      }
      out := out + [AsFinding(f)];
    }
    assert doc.value[..|doc.value|] == doc.value;
    r := Some(out);
  }

  /** Which results of a report are counted: one finding for each that fails unmuted, in order. */
  lemma OpenFindingsSelect(fs: seq<OcsfFinding>) returns (at: seq<nat>)
    ensures |at| == |OpenFindings(fs)| && forall i, j | 0 <= i < j < |at| :: at[i] < at[j]
    ensures forall k :: k in at <==> 0 <= k < |fs| && fs[k].statusCode == "FAIL" && fs[k].status != "Suppressed"
    ensures forall i | 0 <= i < |at| ::
              at[i] < |fs| && OpenFindings(fs)[i] == Finding(NormalizeSeverity(fs[at[i]].severity), fs[at[i]].eventCode, 0)
  {
    at := FilterMapIsSubsequence(IsOpen, AsFinding, fs);
  }

  // ---------------------------------------------------------------- the cache

  datatype Object = Object(at: Time, doc: Document)

  /** What one collection meets: credentials or not, the listing, whether a
      download would succeed, and the bucket at that time. */
  datatype Attempt = Attempt(creds: bool, pages: seq<PageReply>, download: bool, bucket: map<string, Object>)

  /** The listing tells the truth about the bucket. */
  ghost predicate Truthful(a: Attempt) {
    Chain(a.pages) && (Listing(a.pages).Some? ==>
      forall it | it in Listing(a.pages).value :: it.0 in a.bucket && a.bucket[it.0].at == it.1)
  }

  /** Newest report of this attempt, if credentials and listing work and there is one. */
  function Target(a: Attempt): Option<Item> {
    if !a.creds || Listing(a.pages).None? || Newest(IsReport, Listing(a.pages).value) == ("", 0) then None
    else Some(Newest(IsReport, Listing(a.pages).value))
  }

  /** Downloading and parsing the newest report, every time. */
  function Uncached(a: Attempt): Option<seq<Finding>> {
    match Target(a)
    case None => None
    case Some((key, _)) =>
      if !a.download || key !in a.bucket || a.bucket[key].doc.None? then None
      else Some(OpenFindings(a.bucket[key].doc.value))
  }

  datatype Cache = Cache(key: string, at: Time, findings: seq<Finding>)

  const EMPTY := Cache("", 0, [])

  /** One collection with the cache. */
  function Collect(c: Cache, a: Attempt): (Cache, Option<seq<Finding>>) {
    match Target(a)
    case None => (c, None)
    case Some((key, at)) =>
      if key == c.key then (c, Some(c.findings))
      else match Uncached(a)
           case None => (c, None)
           case Some(fs) => (Cache(key, at, fs), Some(fs))
  }

  class ProwlerSource {
    var lastKey: string
    var lastAt: Time
    var lastFind: seq<Finding>

    constructor ()
      ensures View() == EMPTY
    {
      lastKey, lastAt, lastFind := "", 0, [];
    }

    function View(): Cache
      reads this
    {
      Cache(lastKey, lastAt, lastFind)
    }

    method CollectReport(a: Attempt) returns (r: Option<seq<Finding>>)
      requires Chain(a.pages)
      modifies this
      ensures (View(), r) == Collect(old(View()), a)
    {
      if !a.creds {
        return None;
      }
      var newest := NewestReport(a.pages);
      if newest.None? {
        assert Target(a).None? by {
          if Listing(a.pages).Some? {
            NewestIsFirstLatest(IsReport, Listing(a.pages).value);
          }
        }
        return None;
      }
      var (key, at) := newest.value;
      if key == lastKey {
        return Some(lastFind);
      }
      if !a.download || key !in a.bucket {
        return None;
      }
      var fs := ParseOcsf(a.bucket[key].doc);
      if fs.None? {
        return None;
      }
      lastKey, lastAt, lastFind := key, at, fs.value;
      return fs;
    }

    /** dataTimes: when the newest report was written, once there is one. */
    method DataTimes() returns (m: map<string, Time>)
      ensures m == if View().at == 0 then map[] else map["prowler" := View().at]
    {
      if lastAt == 0 {
        return map[];
      }
      return map["prowler" := lastAt];
    }
  }

  /** The caches after each prefix of a run. */
  function CacheAfter(attempts: seq<Attempt>): Cache {
    if attempts == [] then EMPTY
    else Collect(CacheAfter(attempts[..|attempts| - 1]), attempts[|attempts| - 1]).0
  }

  /** A key, once seen, keeps its time and its content. */
  ghost predicate WriteOnce(attempts: seq<Attempt>) {
    forall a, b, k | a in attempts && b in attempts && k in a.bucket && k in b.bucket :: a.bucket[k] == b.bucket[k]
  }

  /** The attempt that filled the cache: its report is what the cache holds. */
  ghost predicate Filled(c: Cache, a: Attempt) {
    && c.key in a.bucket && a.bucket[c.key].doc.Some?
    && c.at == a.bucket[c.key].at && c.findings == OpenFindings(a.bucket[c.key].doc.value)
  }

  /** The cache is empty, or holds a report that was in the bucket during this run. */
  ghost predicate Sound(c: Cache, attempts: seq<Attempt>) {
    c == EMPTY ||
    exists a | a in attempts ::
      Filled(c, a) && c.at > 0
  }

  lemma TargetInBucket(a: Attempt)
    requires Truthful(a) && Target(a).Some?
    ensures var (key, at) := Target(a).value;
            key != "" && at > 0 && key in a.bucket && a.bucket[key].at == at
  {
    var items := Listing(a.pages).value;
    NewestIsFirstLatest(IsReport, items);
    var i: nat :| IsNewest(IsReport, items, i) && items[i] == Newest(IsReport, items);
    assert items[i] in items;
  }

  lemma {:induction false} CacheIsSound(attempts: seq<Attempt>)
    requires forall a | a in attempts :: Truthful(a)
    ensures Sound(CacheAfter(attempts), attempts)
  {
    if attempts != [] {
      var k := |attempts| - 1;
      var before, a := attempts[..k], attempts[k];
      assert a in attempts && forall b | b in before :: b in attempts;
      CacheIsSound(before);
      if Target(a).Some? {
        TargetInBucket(a);
      }
    }
  }

  /** Overwriting an object gives it a new time. */
  ghost predicate OverwriteIsDated(attempts: seq<Attempt>) {
    forall a, b, k | a in attempts && b in attempts && k in a.bucket && k in b.bucket :: SameTimeSameObject(a.bucket[k], b.bucket[k])
  }

  ghost predicate SameTimeSameObject(x: Object, y: Object) {
    x.at == y.at ==> x == y
  }

  /** Keys need not be write-once. When the newest report has the cached key, the
      cache answers as re-reading would, with the right data time, exactly when
      the listing shows the time the cache holds, which a caller could look at
      before using it; the code looks at the key alone. */
  lemma HitIsRightIff(attempts: seq<Attempt>, a: Attempt)
    requires (forall x | x in attempts + [a] :: Truthful(x)) && OverwriteIsDated(attempts + [a])
    requires Target(a).Some? && Target(a).value.0 == CacheAfter(attempts).key
    ensures var c := CacheAfter(attempts);
            Collect(c, a).1 == Uncached(a.(download := true)) && Collect(c, a).0.at == Target(a).value.1
            <==> Target(a).value.1 == c.at
  {
    forall x | x in attempts ensures Truthful(x) && x in attempts + [a] {
      assert x in attempts + [a];
    }
    assert a in attempts + [a];
    CacheIsSound(attempts);
    TargetInBucket(a);
    var c := CacheAfter(attempts);
    var b :| b in attempts && Filled(c, b);
    assert SameTimeSameObject(a.bucket[c.key], b.bucket[c.key]);
    assert Target(a.(download := true)) == Target(a);
  }

  const KEY := "a.ocsf.json"

  /** A bucket with one report, written at `at`, with these results. */
  function OneReport(at: Time, results: seq<OcsfFinding>): Attempt {
    Attempt(true, [Page([(KEY, at)], false, "")], true, map[KEY := Object(at, Some(results))])
  }

  lemma OneReportTarget(at: Time, results: seq<OcsfFinding>)
    requires at > 0
    ensures var a := OneReport(at, results); Truthful(a) && Target(a) == Some((KEY, at)) && Uncached(a) == Some(OpenFindings(results))
  {
    var a := OneReport(at, results);
    var items := [(KEY, at)];
    assert KEY[1..] == SUFFIX;
    assert a.pages[..0] == [] && Listing(a.pages) == Some([] + items) && [] + items == items;
    assert items[..0] == [] && Newest(IsReport, items) == (KEY, at);
  }

  lemma OneOpen(f: OcsfFinding)
    requires IsOpen(f)
    ensures OpenFindings([f]) == [AsFinding(f)] && OpenFindings([]) == []
  {
    FilterMapSnoc(IsOpen, AsFinding, [], f);
    assert [] + [f] == [f];
  }

  /** A report with an open finding is overwritten by one without: the cache goes
      on reporting the finding, under the time of the first. */
  lemma OverwrittenReportIsStale(f: OcsfFinding)
    requires IsOpen(f)
    ensures var first, second := OneReport(1, [f]), OneReport(2, []);
            && Truthful(first) && Truthful(second) && OverwriteIsDated([first, second])
            && Collect(CacheAfter([first]), second) == (Cache(KEY, 1, [AsFinding(f)]), Some([AsFinding(f)]))
            && Uncached(second) == Some([]) && Target(second) == Some((KEY, 2))
  {
    var first, second := OneReport(1, [f]), OneReport(2, []);
    OneReportTarget(1, [f]);
    OneReportTarget(2, []);
    OneOpen(f);
    SecondIsAHit(first, second, KEY, [AsFinding(f)]);
    TwoTimes(first, second);
  }

  lemma TwoTimes(first: Attempt, second: Attempt)
    requires forall k | k in first.bucket && k in second.bucket :: first.bucket[k].at != second.bucket[k].at
    ensures OverwriteIsDated([first, second])
  {
  }

  lemma SecondIsAHit(first: Attempt, second: Attempt, key: string, fs: seq<Finding>)
    requires Target(first) == Some((key, 1)) && Uncached(first) == Some(fs) && key != ""
    requires Target(second) == Some((key, 2))
    ensures Collect(CacheAfter([first]), second) == (Cache(key, 1, fs), Some(fs))
  {
    assert [first][..0] == [];
    assert CacheAfter([first]) == Collect(EMPTY, first).0;
  }

  /** With write-once keys, over every run and whatever fails in it, each
      collection returns what downloading and parsing the newest report would
      have returned, had the download worked where the cache made it
      unnecessary; and after a success the data time is that report's. */
  lemma CachedIsUncached(attempts: seq<Attempt>, a: Attempt)
    requires (forall b | b in attempts + [a] :: Truthful(b)) && WriteOnce(attempts + [a])
    ensures var c := CacheAfter(attempts);
            var hit := Target(a).Some? && Target(a).value.0 == c.key;
            && Collect(c, a).1 == Uncached(a.(download := a.download || hit))
            && (Collect(c, a).1.Some? ==> Target(a).Some? && Collect(c, a).0.at == Target(a).value.1)
  {
    forall b | b in attempts ensures Truthful(b) && b in attempts + [a] {
      assert b in attempts + [a];
    }
    assert a in attempts + [a];
    CacheIsSound(attempts);
    var c := CacheAfter(attempts);
    if Target(a).Some? {
      TargetInBucket(a);
      var hit := a.(download := true);
      assert Target(hit) == Target(a);
      if Target(a).value.0 == c.key {
        var b :| b in attempts && Filled(c, b);
        assert b in attempts + [a] && b.bucket[c.key] == a.bucket[c.key];
      }
    }
  }

  /** In particular the cache never fails where re-reading would have worked, and
      an attempt without an answer leaves the cache as it was. */
  lemma CacheOnlyHelps(attempts: seq<Attempt>, a: Attempt)
    requires (forall b | b in attempts + [a] :: Truthful(b)) && WriteOnce(attempts + [a])
    ensures var c := CacheAfter(attempts);
            && (Uncached(a).Some? ==> Collect(c, a).1 == Uncached(a))
            && (Collect(c, a).1.None? ==> Uncached(a).None? && Collect(c, a).0 == c)
  {
    CachedIsUncached(attempts, a);
  }
}
