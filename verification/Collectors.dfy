/** githubSource.collect and alertmanagerSource.collect: every page of every
    repository, or an error; and then exactly the alerts of the wanted tools. */
module Collectors {
  import opened Text
  import opened Clock
  import opened Findings
  import opened Severity
  import opened LinkHeader
  import opened Filters

  /** A finding with the name it is reported under. */
  type Named = (string, Finding)

  /** The findings under one name, in order. */
  function Select(items: seq<Named>, name: string): seq<Finding> {
    FilterMap((it: Named) => it.0 == name, (it: Named) => it.1, items)
  }

  /** `out` files each item of a wanted name under it, in order, and nothing else. */
  ghost predicate Filed(out: map<string, seq<Finding>>, items: seq<Named>, wanted: seq<string>) {
    && (forall n :: n in out <==> n in wanted && Select(items, n) != [])
    && (forall n | n in out :: out[n] == Select(items, n))
  }

  function FileOne(out: map<string, seq<Finding>>, it: Named, wanted: seq<string>): map<string, seq<Finding>> {
    if it.0 in wanted then out[it.0 := (if it.0 in out then out[it.0] else []) + [it.1]] else out
  }

  /** Filing the items one by one. */
  function Files(items: seq<Named>, wanted: seq<string>): map<string, seq<Finding>> {
    if items == [] then map[] else
      FileOne(Files(items[..|items| - 1], wanted), items[|items| - 1], wanted)
  }

  lemma FilesSnoc(items: seq<Named>, it: Named, wanted: seq<string>)
    ensures Files(items + [it], wanted) == FileOne(Files(items, wanted), it, wanted)
  {
    assert (items + [it])[..|items|] == items;
  }

  lemma {:induction false} FilesAreFiled(items: seq<Named>, wanted: seq<string>)
    ensures Filed(Files(items, wanted), items, wanted)
  {
    if items != [] {
      var front, it := items[..|items| - 1], items[|items| - 1];
      FilesAreFiled(front, wanted);
      FiledOneMore(Files(front, wanted), front, wanted, it);
      FrontLast(items);
    }
  }

  lemma FiledOneMore(out: map<string, seq<Finding>>, items: seq<Named>, wanted: seq<string>, it: Named)
    requires Filed(out, items, wanted)
    ensures Filed(FileOne(out, it, wanted), items + [it], wanted)
  {
    forall n ensures Select(items + [it], n) == Select(items, n) + if it.0 == n then [it.1] else [] {
    }
  }

  /** Each name's findings are the subsequence of the items that carry it: the
      positions ascend, and no such item is missing. */
  lemma SelectIsSubsequence(items: seq<Named>, name: string) returns (at: seq<nat>)
    ensures |at| == |Select(items, name)|
    ensures forall i, j | 0 <= i < j < |at| :: at[i] < at[j]
    ensures forall i | 0 <= i < |at| :: at[i] < |items| && items[at[i]] == (name, Select(items, name)[i])
    ensures forall k | 0 <= k < |items| && items[k].0 == name :: k in at
  {
    at := FilterMapIsSubsequence((it: Named) => it.0 == name, (it: Named) => it.1, items);
  }

  // ---------------------------------------------------------------- GitHub

  datatype GhAlert = GhAlert(createdAt: Time, ruleID: string, ruleSeverity: string, securitySeverity: string,
                             tool: string, category: string)

  function TrimUnderscores(s: string): string {
    if s != "" && s[|s| - 1] == '_' then TrimUnderscores(s[..|s| - 1]) else s
  }

  function GhFinding(al: GhAlert): Finding {
    var severity := if al.securitySeverity == "" then al.ruleSeverity else al.securitySeverity;
    var item := if Lower(al.tool) == "trivy" && al.category != "" then TrimUnderscores(al.category) else al.ruleID;
    Finding(NormalizeSeverity(severity), item, al.createdAt)
  }

  /** What a finding says of its alert. */
  ghost predicate Means(al: GhAlert, f: Finding) {
    && f.since == al.createdAt && OnScale(f.severity)
    && (al.securitySeverity != "" ==> f.severity == NormalizeSeverity(al.securitySeverity))
    && (al.securitySeverity == "" ==> f.severity == NormalizeSeverity(al.ruleSeverity))
    && if FromImageScan(al)
       then (f.item == "" || f.item[|f.item| - 1] != '_') && exists k: nat :: al.category == f.item + Underscores(k)
       else f.item == al.ruleID
  }

  /** Trivy, in any case, with a scan category. */
  predicate FromImageScan(al: GhAlert) {
    Lower(al.tool) == "trivy" && al.category != ""
  }

  function Underscores(k: nat): string {
    if k == 0 then "" else Underscores(k - 1) + "_"
  }

  lemma {:induction false} TrimmedUnderscores(s: string) returns (k: nat)
    ensures s == TrimUnderscores(s) + Underscores(k)
    ensures TrimUnderscores(s) == "" || TrimUnderscores(s)[|TrimUnderscores(s)| - 1] != '_'
  {
    if s != "" && s[|s| - 1] == '_' {
      k := TrimmedUnderscores(s[..|s| - 1]);
      FrontLast(s);
      Assoc(TrimUnderscores(s), Underscores(k), "_");
      k := k + 1;
    } else {
      k := 0;
      assert s + "" == s;
    }
  }

  lemma GhFindingMeans(al: GhAlert)
    ensures Means(al, GhFinding(al))
  {
    ScaleIsFixed(if al.securitySeverity == "" then al.ruleSeverity else al.securitySeverity);
    var k := TrimmedUnderscores(al.category);
  }

  /** The generic level only counts where no security severity is set, and the
      category only for Trivy. */
  lemma WhatDoesNotMatter(al: GhAlert, x: string)
    ensures al.securitySeverity != "" ==> GhFinding(al.(ruleSeverity := x)) == GhFinding(al)
    ensures al.securitySeverity == "" ==> GhFinding(al.(securitySeverity := al.ruleSeverity)) == GhFinding(al)
    ensures Lower(al.tool) != "trivy" ==> GhFinding(al.(category := x)) == GhFinding(al)
    ensures FromImageScan(al) ==> GhFinding(al.(ruleID := x)) == GhFinding(al)
  {
  }

  function NamedAlerts(page: seq<GhAlert>): (r: seq<Named>)
    ensures |r| == |page| && forall i | 0 <= i < |r| :: r[i] == (Lower(page[i].tool), GhFinding(page[i]))
  {
    seq(|page|, i requires 0 <= i < |page| => (Lower(page[i].tool), GhFinding(page[i])))
  }

  /** A page of alerts and its Link header, or a failed request. */
  datatype Reply = Error | Page(alerts: seq<GhAlert>, link: string)

  /** The answer to request number t, which need not be that of an earlier request for the same URL. */
  type Server = (nat, string) -> Reply

  /** The replies heard from `url` on, following next links until there is none or
      a request fails; the first is to request number t. */
  ghost predicate Heard(server: Server, t: nat, url: string, replies: seq<Reply>)
    decreases |replies|
  {
    if url == "" then replies == []
    else replies != [] && replies[0] == server(t, url) &&
         match replies[0]
         case Error => |replies| == 1
         case Page(_, link) => Heard(server, t + 1, NextLink(link), replies[1..])
  }

  ghost predicate AllAnswer(replies: seq<Reply>) {
    forall r | r in replies :: r.Page?
  }

  function PageAlerts(r: Reply): seq<Named> {
    match r
    case Error => []
    case Page(alerts, _) => NamedAlerts(alerts)
  }

  /** All alerts of these pages, in order. */
  function Gathered(replies: seq<Reply>): seq<Named> {
    if replies == [] then [] else
      var k := |replies| - 1;
      Gathered(replies[..k]) + PageAlerts(replies[k])
  }

  lemma GatheredSnoc(replies: seq<Reply>, r: Reply)
    ensures Gathered(replies + [r]) == Gathered(replies) + PageAlerts(r)
  {
    assert (replies + [r])[..|replies|] == replies;
  }

  /** An item is the finding of an alert on one of the pages, under the alert's tool. */
  ghost predicate FromPage(it: Named, r: Reply, al: GhAlert) {
    r.Page? && al in r.alerts && it.0 == Lower(al.tool) && Means(al, it.1)
  }

  ghost predicate FromPages(it: Named, replies: seq<Reply>) {
    exists r, al :: r in replies && FromPage(it, r, al)
  }

  lemma {:induction false} GatheredMean(replies: seq<Reply>)
    ensures forall it | it in Gathered(replies) :: FromPages(it, replies)
  {
    if replies != [] {
      var k := |replies| - 1;
      GatheredMean(replies[..k]);
      forall it | it in Gathered(replies) ensures FromPages(it, replies) {
        if it in Gathered(replies[..k]) {
          var r, al :| r in replies[..k] && FromPage(it, r, al);
          assert r in replies;
        } else {
          var i :| 0 <= i < |PageAlerts(replies[k])| && PageAlerts(replies[k])[i] == it;
          GhFindingMeans(replies[k].alerts[i]);
          assert FromPage(it, replies[k], replies[k].alerts[i]);
        }
      }
    }
  }

  /** Every finding filed under a tool says what some alert of that tool says. */
  ghost predicate FiledMean(out: map<string, seq<Finding>>, replies: seq<Reply>) {
    forall n, f | n in out && f in out[n] :: FromPages((n, f), replies)
  }

  lemma FiledAreMeant(out: map<string, seq<Finding>>, replies: seq<Reply>, wanted: seq<string>)
    requires Filed(out, Gathered(replies), wanted)
    ensures FiledMean(out, replies)
  {
    GatheredMean(replies);
    forall n, f | n in out && f in out[n] ensures FromPages((n, f), replies) {
      var at := SelectIsSubsequence(Gathered(replies), n);
      var i :| 0 <= i < |out[n]| && out[n][i] == f;
      assert Gathered(replies)[at[i]] in Gathered(replies);
    }
  }

  /** What is heard for all repositories, one after the other. */
  function Chained(chains: seq<seq<Reply>>): seq<Reply> {
    if chains == [] then [] else Chained(chains[..|chains| - 1]) + chains[|chains| - 1]
  }

  function TrimSlashes(s: string): string {
    if s != "" && s[|s| - 1] == '/' then TrimSlashes(s[..|s| - 1]) else s
  }

  function FirstUrl(api: string, repo: string): string {
    TrimSlashes(api) + "/repos/" + repo + ("/code-scanning/alerts" + "?state=open" + "&per_page=100")
  }

  lemma PrefixSnoc(items: seq<Named>, i: nat)
    requires i < |items|
    ensures items[..i] + [items[i]] == items[..i + 1]
  {
  }

  function Slashes(k: nat): string {
    if k == 0 then "" else Slashes(k - 1) + "/"
  }

  /** The first request of a repository, however many slashes end the base URL. */
  lemma FirstUrlIs(api: string, k: nat, repo: string)
    requires api == "" || api[|api| - 1] != '/'
    ensures FirstUrl(api + Slashes(k), repo)
            == api + "/repos/" + repo + ("/code-scanning/alerts" + "?state=open" + "&per_page=100")
  {
    SlashesTrimmed(api, k);
  }

  lemma {:induction false} SlashesTrimmed(api: string, k: nat)
    requires api == "" || api[|api| - 1] != '/'
    ensures TrimSlashes(api + Slashes(k)) == api
  {
    if k == 0 {
      assert api + "" == api;
    } else {
      SlashesTrimmed(api, k - 1);
      var s := api + Slashes(k);
      assert s[|s| - 1] == '/' && s[..|s| - 1] == api + Slashes(k - 1);
    }
  }

  method FilePage(out0: map<string, seq<Finding>>, page: seq<GhAlert>, tools: seq<string>, ghost before: seq<Named>)
    returns (out: map<string, seq<Finding>>)
    requires out0 == Files(before, tools)
    ensures out == Files(before + NamedAlerts(page), tools)
  {
    out := out0;
    assert before + NamedAlerts(page)[..0] == before;
    for i := 0 to |page|
      invariant out == Files(before + NamedAlerts(page)[..i], tools)
    {
      var tool, f := Lower(page[i].tool), GhFinding(page[i]);
      PrefixSnoc(NamedAlerts(page), i);
      Assoc(before, NamedAlerts(page)[..i], [(tool, f)]);
      FilesSnoc(before + NamedAlerts(page)[..i], (tool, f), tools);
      if tool in tools {
        out := out[tool := (if tool in out then out[tool] else []) + [f]];
      }
    }
    assert NamedAlerts(page)[..|page|] == NamedAlerts(page);
  }

  /** What has been filed after these replies. */
  function Collected(replies: seq<Reply>, tools: seq<string>): map<string, seq<Finding>> {
    Files(Gathered(replies), tools)
  }

  method FileReply(out0: map<string, seq<Finding>>, reply: Reply, tools: seq<string>, ghost replies: seq<Reply>)
    returns (out: map<string, seq<Finding>>)
    requires reply.Page? && out0 == Collected(replies, tools)
    ensures out == Collected(replies + [reply], tools)
  {
    out := FilePage(out0, reply.alerts, tools, Gathered(replies));
    GatheredSnoc(replies, reply);
  }

  /** `filed` says what has been filed after the replies given to it. */
  ghost predicate IsCollected(filed: seq<Reply> -> map<string, seq<Finding>>, tools: seq<string>) {
    forall replies {:trigger Collected(replies, tools)} :: filed(replies) == Collected(replies, tools)
  }

  /** One request: its alerts filed, and the URL of the next. */
  method OnePage(server: Server, t: nat, url: string, tools: seq<string>, out0: map<string, seq<Finding>>,
                 ghost filed: seq<Reply> -> map<string, seq<Finding>>, ghost heard: seq<Reply>, ghost rest: seq<Reply>)
    returns (ok: bool, next: string, out: map<string, seq<Finding>>)
    requires IsCollected(filed, tools)
    requires url != "" && Heard(server, t, url, rest) && out0 == filed(heard)
    ensures ok <==> rest[0].Page?
    ensures ok ==> Heard(server, t + 1, next, rest[1..]) && out == filed(heard + [rest[0]])
  {
    var reply := server(t, url);
    if reply.Error? {
      return false, "", out0;
    }
    out := FileReply(out0, reply, tools, heard);
    next := FindNext(reply.link);
    ok := true;
  }

  /** One repository's pages; `replies` is the finite chain the server leads through. */
  method CollectRepo(server: Server, t: nat, first: string, tools: seq<string>, out0: map<string, seq<Finding>>,
                     ghost filed: seq<Reply> -> map<string, seq<Finding>>, ghost before: seq<Reply>, ghost replies: seq<Reply>)
    returns (ok: bool, next: nat, out: map<string, seq<Finding>>)
    requires IsCollected(filed, tools) && Heard(server, t, first, replies) && out0 == filed(before)
    ensures ok <==> AllAnswer(replies)
    ensures ok ==> next == t + |replies| && out == filed(before + replies)
  {
    out, next, ok := out0, t, true;
    var url := first;
    ghost var n := 0;
    assert replies[0..] == replies && before + replies[..0] == before;
    while url != ""
      invariant n <= |replies| && next == t + n
      invariant Heard(server, next, url, replies[n..])
      invariant AllAnswer(replies[..n])
      invariant out == filed(before + replies[..n])
      decreases |replies| - n
    {
      ok, url, out := OnePage(server, next, url, tools, out, filed, before + replies[..n], replies[n..]);
      if !ok {
        assert replies[n].Error?;
        return;
      }
      OneMore(before, replies, n);
      next, n := next + 1, n + 1;
    }
    assert replies[..n] == replies;
  }

  lemma OneMore(before: seq<Reply>, replies: seq<Reply>, n: nat)
    requires n < |replies|
    ensures before + replies[..n + 1] == before + replies[..n] + [replies[n]] && replies[n..][1..] == replies[n + 1..]
    ensures AllAnswer(replies[..n + 1]) <==> AllAnswer(replies[..n]) && replies[n].Page?
  {
    assert replies[..n + 1] == replies[..n] + [replies[n]];
  }

  /** What the server leads through for each repository, as far as requests get. */
  ghost predicate Leads(server: Server, firsts: seq<string>, chains: seq<seq<Reply>>) {
    && |chains| == |firsts|
    && forall i | 0 <= i < |firsts| && AllAnswer(Chained(chains[..i])) ::
         Heard(server, |Chained(chains[..i])|, firsts[i], chains[i])
  }

  /** githubSource.collect: all or nothing. */
  method CollectGithub(server: Server, api: string, repos: seq<string>, tools: seq<string>, token: bool,
                       ghost chains: seq<seq<Reply>>)
    returns (r: Option<map<string, seq<Finding>>>)
    requires Leads(server, FirstUrls(api, repos), chains)
    ensures r.Some? <==> token && AllAnswer(Chained(chains))
    ensures r.Some? ==> Filed(r.value, Gathered(Chained(chains)), tools) && FiledMean(r.value, Chained(chains))
  {
    if !token {
      return None;
    }
    r := CollectAll(server, FirstUrls(api, repos), tools, chains);
    if r.Some? {
      FiledAreMeant(r.value, Chained(chains), tools);
    }
  }

  function FirstUrls(api: string, repos: seq<string>): (r: seq<string>)
    ensures |r| == |repos| && forall i | 0 <= i < |r| :: r[i] == FirstUrl(api, repos[i])
  {
    seq(|repos|, i requires 0 <= i < |repos| => FirstUrl(api, repos[i]))
  }

  method CollectAll(server: Server, firsts: seq<string>, tools: seq<string>, ghost chains: seq<seq<Reply>>)
    returns (r: Option<map<string, seq<Finding>>>)
    requires Leads(server, firsts, chains)
    ensures r.Some? <==> AllAnswer(Chained(chains))
    ensures r.Some? ==> Filed(r.value, Gathered(Chained(chains)), tools)
  {
    var out: map<string, seq<Finding>> := map[];
    ghost var filed := (replies: seq<Reply>) => Collected(replies, tools);
    var t := 0;
    for i := 0 to |firsts|
      invariant t == |Chained(chains[..i])| && AllAnswer(Chained(chains[..i]))
      invariant out == Collected(Chained(chains[..i]), tools)
    {
      ghost var done := Chained(chains[..i]);
      var ok;
      ok, t, out := CollectRepo(server, t, firsts[i], tools, out, filed, done, chains[i]);
      if !ok {
        ChainedMembers(chains, i);
        return None;
      }
      ChainedOneMore(chains, i);
    }
    assert chains[..|firsts|] == chains;
    FilesAreFiled(Gathered(Chained(chains)), tools);
    r := Some(out);
  }

  lemma ChainedOneMore(chains: seq<seq<Reply>>, i: nat)
    requires i < |chains|
    ensures Chained(chains[..i + 1]) == Chained(chains[..i]) + chains[i]
  {
    assert chains[..i + 1][..i] == chains[..i];
  }

  lemma {:induction false} ChainedMembers(chains: seq<seq<Reply>>, i: nat)
    requires i < |chains|
    ensures forall r | r in chains[i] :: r in Chained(chains)
  {
    if i < |chains| - 1 {
      ChainedMembers(chains[..|chains| - 1], i);
    }
  }

  /** The replies to requests for these URLs, one after the other, from request number t on. */
  function Replies(server: Server, t: nat, urls: seq<string>): (r: seq<Reply>)
    ensures |r| == |urls|
    decreases |urls|
  {
    if urls == [] then [] else [server(t, urls[0])] + Replies(server, t + 1, urls[1..])
  }

  /** A reply with these links, the first next link among them leading to `next`. */
  ghost predicate LinksTo(r: Reply, links: seq<Link>, next: string) {
    r.Page? && r.link == PrintLinks(links) && (forall l | l in links :: GoodLink(l)) && FirstNext(links) == next
  }

  function NextUrl(urls: seq<string>, i: nat): string {
    if i + 1 < |urls| then urls[i + 1] else ""
  }

  /** Page i links to page i + 1, the last one to nothing. */
  ghost predicate LinkedAt(replies: seq<Reply>, urls: seq<string>, links: seq<seq<Link>>, i: nat)
    requires i < |replies| == |urls| == |links|
  {
    urls[i] != "" && LinksTo(replies[i], links[i], NextUrl(urls, i))
  }

  ghost predicate Linked(replies: seq<Reply>, urls: seq<string>, links: seq<seq<Link>>)
    requires |replies| == |urls| == |links|
  {
    forall i | 0 <= i < |urls| :: LinkedAt(replies, urls, links, i)
  }

  lemma LinkedTail(replies: seq<Reply>, urls: seq<string>, links: seq<seq<Link>>)
    requires |replies| == |urls| == |links| > 1 && Linked(replies, urls, links)
    ensures Linked(replies[1..], urls[1..], links[1..])
  {
    forall i | 0 <= i < |urls[1..]| ensures LinkedAt(replies[1..], urls[1..], links[1..], i) {
      assert LinkedAt(replies, urls, links, i + 1);
    }
  }

  /** A server that pages with printed Link headers is followed page by page: the
      next request is the next page's URL, and the last page ends the chain. */
  lemma {:induction false} PagesAreFollowed(server: Server, t: nat, urls: seq<string>, links: seq<seq<Link>>)
    requires urls != [] && |links| == |urls| && Linked(Replies(server, t, urls), urls, links)
    ensures Heard(server, t, urls[0], Replies(server, t, urls))
    decreases |urls|
  {
    var replies := Replies(server, t, urls);
    assert LinkedAt(replies, urls, links, 0);
    NextLinkRoundTrip(links[0]);
    assert replies[1..] == Replies(server, t + 1, urls[1..]);
    if |urls| > 1 {
      LinkedTail(replies, urls, links);
      PagesAreFollowed(server, t + 1, urls[1..], links[1..]);
    }
  }

  // ---------------------------------------------------------------- Alertmanager

  datatype AmAlert = AmAlert(labels: map<string, string>, startsAt: Time)

  function Label(al: AmAlert, name: string): string {
    if name in al.labels then al.labels[name] else ""
  }

  function AmFinding(al: AmAlert): Finding {
    var source := Label(al, "source");
    if source == "falco" then Finding(NormalizeSeverity(Label(al, "priority")), Label(al, "rule"), al.startsAt)
    else if source == "kubescape" then Finding(NormalizeSeverity(Label(al, "severity")), Label(al, "control"), al.startsAt)
    else Finding(NormalizeSeverity(Label(al, "severity")), Label(al, "alertname"), al.startsAt)
  }

  /** Falco's severity is its priority and its item the rule; Kubescape's item is
      the control; for any other source it is the alert's name. */
  ghost predicate AmMeans(al: AmAlert, f: Finding) {
    && f.since == al.startsAt && OnScale(f.severity)
    && (Label(al, "source") == "falco" ==> f.severity == NormalizeSeverity(Label(al, "priority")) && f.item == Label(al, "rule"))
    && (Label(al, "source") != "falco" ==> f.severity == NormalizeSeverity(Label(al, "severity")))
    && (Label(al, "source") == "kubescape" ==> f.item == Label(al, "control"))
    && (Label(al, "source") != "falco" && Label(al, "source") != "kubescape" ==> f.item == Label(al, "alertname"))
  }

  lemma AmFindingMeans(al: AmAlert)
    ensures AmMeans(al, AmFinding(al))
  {
    ScaleIsFixed(Label(al, "priority"));
    ScaleIsFixed(Label(al, "severity"));
  }

  /** A label that is not one of the two its source uses changes nothing. */
  lemma OtherLabels(al: AmAlert, name: string, value: string)
    requires name != "source" && if Label(al, "source") == "falco" then name != "priority" && name != "rule"
                                 else if Label(al, "source") == "kubescape" then name != "severity" && name != "control"
                                 else name != "severity" && name != "alertname"
    ensures AmFinding(al.(labels := al.labels[name := value])) == AmFinding(al)
  {
  }

  function NamedAmAlerts(als: seq<AmAlert>): (r: seq<Named>)
    ensures |r| == |als| && forall i | 0 <= i < |r| :: r[i] == (Label(als[i], "source"), AmFinding(als[i]))
  {
    seq(|als|, i requires 0 <= i < |als| => (Label(als[i], "source"), AmFinding(als[i])))
  }

  /** alertmanagerSource.collect; `None` is a failed request. */
  method CollectAlertmanager(answer: Option<seq<AmAlert>>, sources: seq<string>) returns (r: Option<map<string, seq<Finding>>>)
    ensures r.Some? <==> answer.Some?
    ensures r.Some? ==> Filed(r.value, NamedAmAlerts(answer.value), sources)
    ensures r.Some? ==> forall n, f | n in r.value && f in r.value[n] ::
              exists al | al in answer.value :: Label(al, "source") == n && AmMeans(al, f)
  {
    if answer.None? {
      return None;
    }
    var alerts := answer.value;
    var out: map<string, seq<Finding>> := map[];
    for i := 0 to |alerts|
      invariant out == Files(NamedAmAlerts(alerts)[..i], sources)
    {
      var src, f := Label(alerts[i], "source"), AmFinding(alerts[i]);
      FilesSnoc(NamedAmAlerts(alerts)[..i], (src, f), sources);
      PrefixSnoc(NamedAmAlerts(alerts), i);
      if src in sources {
        out := out[src := (if src in out then out[src] else []) + [f]];
      }
    }
    assert NamedAmAlerts(alerts)[..|alerts|] == NamedAmAlerts(alerts);
    FilesAreFiled(NamedAmAlerts(alerts), sources);
    AmFiledAreMeant(out, alerts, sources);
    r := Some(out);
  }

  lemma AmFiledAreMeant(out: map<string, seq<Finding>>, alerts: seq<AmAlert>, wanted: seq<string>)
    requires Filed(out, NamedAmAlerts(alerts), wanted)
    ensures forall n, f | n in out && f in out[n] :: exists al | al in alerts :: Label(al, "source") == n && AmMeans(al, f)
  {
    forall n, f | n in out && f in out[n] ensures exists al | al in alerts :: Label(al, "source") == n && AmMeans(al, f) {
      var at := SelectIsSubsequence(NamedAmAlerts(alerts), n);
      var i :| 0 <= i < |out[n]| && out[n][i] == f;
      AmFindingMeans(alerts[at[i]]);
    }
  }
}
