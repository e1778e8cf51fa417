# Verified model of the platform's programs

This project models the logic of three programs of the platform and proves what
they are for.

* **findings-exporter** (Go): a metrics store written by concurrent pollers and
  printed as Prometheus text (text exposition format 0.0.4, "Text format
  details"); hand-written AWS request signing (AWS Signature Version 4, "Create a
  canonical request"; percent-encoding per sections 2.1 and 2.3 of RFC 3986);
  paginated collectors; a report cache and two token caches.
* **node-maintenance** (bash): sheds workloads before node reboots and restores
  them, with Argo CD's self-heal as the adversary.
* **kubescape-gate** (Go): compares a scan with a reviewed list and alerts on what
  is new.

A Go string is a Dafny string with one char below 256 per byte. A time is an
integer number of nanoseconds since Go's zero time, so `IsZero` is `== 0`. Map
iteration is a choice of any remaining key. HTTP, S3, STS, kubectl and the clock
are inputs or choices; SHA-256 and HMAC are uninterpreted functions.

| file | models |
|---|---|
| `Text.dfy`, `Clock.dfy`, `Sorting.dfy`, `Filters.dfy` | byte-string order, Split/Join/Fields/TrimSpace/decimals and their inverses; `sort.Slice` by its promise alone |
| `Utf8.dfy`, `Exposition.dfy`, `Aggregate.dfy` | `strings.ToValidUTF8`, label quoting, the printed text and a reader of it, the meaning of a store |
| `Findings.dfy`, `Metrics.dfy` | the store's operations and the pollers as interleaved steps; the mutable store with its loops |
| `Percent.dfy`, `SigV4.dfy`, `Signing.dfy` | percent-encoding, canonical path and query, the canonical request, signing in place |
| `Maintenance.dfy`, `MaintenanceOrder.dfy`, `MaintenanceScript.dfy` | the script as a transition system, theorems over all runs, and the script's own loops as runs of it |
| `Checks.dfy` | the script's readiness check, from kubectl's text to the verdict |
| `Normalize.dfy`, `Pairs.dfy`, `Gate.dfy`, `GateRun.dfy` | resource IDs, the sort key, scan/list/alerts, the decision |
| `Prowler.dfy`, `ProwlerStore.dfy`, `Tokens.dfy`, `Severity.dfy`, `Lists.dfy`, `LinkHeader.dfy`, `Collectors.dfy`, `EndToEnd.dfy` | report cache and listing, token caches, severity scale, comma-separated settings, Link headers, collectors, the gate's alerts as the exporter's findings |

## Where the code does less than its comments

* `ops/node-maintenance.sh` says a re-run after a partial failure keeps the first
  count (line 128) and that the controller goes first so it cannot scale things
  back (lines 21-24). A re-run does keep the count, but an object left annotated
  and still running is skipped and never scaled. If that object is the
  controller, the rest is shed while it runs.
  `MaintenanceOrder.InterruptedControllerUndoesShedding` gives such a run for any
  workload; `OnKeepsOrderIff` and `OnShedsAllIff` say exactly when it cannot happen.
* `targets` runs in a process substitution: a failed `kubectl get` ends the list
  early (`set -e` applies inside) and nobody sees it. `OffRestoresAllIff` gives the
  exact condition under which a completed `off` still restores everything,
  `OffLeavesNothingToHealIff` that under which it leaves the controller nothing to
  heal, and `CutListBreaksOrder` a run, with nothing killed, where it does not.
* `on` reads the annotation inside a test, where a failed read does not end the
  script and looks like no annotation. What then keeps the first count is that
  `kubectl annotate` without `--overwrite` refuses to change one; the transition
  system has both (`Misread`, `Refuses`), and every theorem over runs covers them.
* `on` calls `check` on the left of `||`, where `set -e` is off: a read that fails
  prints nothing, and nothing is nothing wrong. `Checks.ReadyIff` says exactly what
  a passed check then means, `UnhealthyVolumePassesOn` gives an unfit cluster that
  passes.
* The list of namespaces with federated accounts is read in the head of a `for`,
  where a failure goes unnoticed even with `set -e`: a plain `check` then says that
  every federated pod has credentials without having looked at one.
  `Checks.StrictlyReadyIff`, `UnlistedNamespacesPass`, `UnequippedPodPasses`;
  `ReadyMeansFit` is the case in which every read succeeds.
* Nothing keeps two sources of the exporter from being configured with one name.
  `Findings.IsolatedIff`: their pollers are isolated in every run exactly when the
  names are disjoint.
* `poll` stores findings and data time in two steps. Between rounds the entry is one
  report's (`ProwlerStore.EntryShowsReport`), in between a scrape can find new
  findings under the old data time (`MidRoundIsTorn`).
* The Prowler cache is keyed by the object key alone and does not look at the time
  the listing shows. `Prowler.HitIsRightIff` says when a hit is right,
  `OverwrittenReportIsStale` is a run where it is not; `CachedIsUncached` is the
  case of write-once keys.
* `canonicalQuery` sorts names before encoding them; AWS asks for the order of the
  encoded names. `SigV4.AwsOrderedIff` is the exact condition, `OutOfAwsOrder` an
  input that is out of order.
* `githubApp.token` stores an empty token; `Tokens.GithubReusesIff`.
* `difference` sorts by "control resource"; `Pairs.KeyOrderIff` says for which
  control IDs that is the order by control, `KeysCollideIff` when two pairs can
  share a key (`KeyCollides`), and `Gate.DifferenceDeterminedIff` when that shows.

## Model

| member | source | states |
|---|---|---|
| Utf8.ToValidIdentity | images/findings-exporter/metrics.go:163-165 | dropping invalid UTF-8 changes a string exactly when it is not well formed |
| Utf8.ValidIff | images/findings-exporter/metrics.go:163-165 | well-formed text is what encodes Unicode scalar values (section 3 of RFC 3629), and nothing else |
| Utf8.DropsOnlyThat | images/findings-exporter/metrics.go:163-165 | a byte that begins no sequence is dropped, and the text on both sides of it stays |
| Utf8.InvalidByteIsDropped | images/findings-exporter/metrics.go:163-165 | a Latin-1 byte vanishes, so two different labels can print alike |
| Exposition.UnquoteOfEscape | images/findings-exporter/metrics.go:158-165 | reading an escaped label up to its closing quote gives the label and the rest, for every string with quotes, backslashes and newlines |
| Exposition.QuoteInjective | images/findings-exporter/metrics.go:158-165 | two labels print alike exactly when their well-formed parts agree |
| Exposition.ParseOfSample | images/findings-exporter/metrics.go:105-108 | a printed sample line reads back as metric, labels and value |
| Exposition.SeriesMapHolds | images/findings-exporter/metrics.go:105-155 | samples without contradictory series are exactly what a scraper holds |
| Aggregate.ScrapeRecovers | images/findings-exporter/metrics.go:68-165 | the text of any store can be read; if and only if every printed label is valid UTF-8, the scrape says exactly this: under metric findings_open and the labels source, severity and item the number of such findings, under the other four metrics the time of the first seen finding, up, last success and data time, in seconds since 1970 |
| Aggregate.DescribesIffSays | images/findings-exporter/metrics.go:72-155 | the meaning the printer is proved against is the one spelled out with literal metrics and labels |
| Aggregate.HeadersNameMetrics | images/findings-exporter/metrics.go:89-155 | each block is preceded by HELP and TYPE lines of its own metric, a gauge |
| Aggregate.SamplesHold | images/findings-exporter/metrics.go:72-155 | the samples printed are exactly the ones the findings and source states call for |
| Aggregate.HoldsOnce | images/findings-exporter/metrics.go:72-155 | no series has two values |
| Aggregate.OldestIn | images/findings-exporter/metrics.go:77-85 | the least non-zero first-seen time, present exactly if there is one |
| Aggregate.CountsConserveFindings | images/findings-exporter/metrics.go:72-108 | the counts printed for a source add up to its number of findings |
| Aggregate.PrintedOnceInOrder | images/findings-exporter/metrics.go:87-121 | every key is printed once, by source, then severity, then item, and every name once, strictly ascending |
| Metrics.Store.Set | images/findings-exporter/metrics.go:33-42 | replaces one source's state by a fresh success, keeping its data time and every other source |
| Metrics.Store.SetDataTime | images/findings-exporter/metrics.go:44-50 | changes one existing source's data time and nothing else |
| Metrics.Store.Fail | images/findings-exporter/metrics.go:54-63 | marks one source down, keeping its findings and times |
| Metrics.Store.Gather | images/findings-exporter/metrics.go:72-86 | whatever the map order, the maps hold the count and oldest time of every key and nothing else |
| Metrics.Store.Write | images/findings-exporter/metrics.go:68-156 | the text is a function of the contents alone, the one the theorems above read back |
| Metrics.PollRound | images/findings-exporter/main.go:129-146 | one round of a poller does to the shared store what its operations say, in order |
| Findings.AfterFails | images/findings-exporter/main.go:131-135 | a failed round marks exactly the poller's names down |
| Findings.AfterSets | images/findings-exporter/main.go:136-140 | a good round gives each name its result, a clock reading of its own, and keeps its data time |
| Findings.SoloState | images/findings-exporter/main.go:126-153 | after any history a source shows its last success, is up exactly if the last round succeeded, and keeps the last data time reported |
| Findings.PollersAreIsolated | images/findings-exporter/main.go:126-153 | over every interleaving of pollers with disjoint names, at every moment, the shared store agrees with what each poller's own operations would have left |
| Findings.IsolatedIff | images/findings-exporter/main.go:115-153 | pollers are isolated in every run exactly when no two of them report the same name |
| Findings.SharedState | images/findings-exporter/main.go:126-153 | between rounds a source's shared entry is determined by its own poller's history, whatever the others did |
| Maintenance.CountsAreConserved | ops/node-maintenance.sh:123-176 | over every run, killed before any call and healed at any time, the recorded count if present, else the live one, never changes |
| Maintenance.StepConserves | ops/node-maintenance.sh:127-137 | every single kubectl call, kill or self-heal keeps the conservation invariant |
| MaintenanceOrder.OffRestores | ops/node-maintenance.sh:155-176 | an `off` that completes, after any history, leaves everything on its list at its original count and unannotated |
| MaintenanceOrder.OffRestoresCounts | ops/node-maintenance.sh:133-135 | in kubectl's terms: a set count comes back, an unset one is unset or one replica |
| MaintenanceOrder.OffRestoresAllIff | ops/node-maintenance.sh:61-72 | a completed `off` restores the whole cluster exactly when its list named every annotated object |
| MaintenanceOrder.OffRecovers | ops/node-maintenance.sh:155-176 | after any history there is a way back: an `off` whose list names what is annotated, left alone, completes and makes the cluster whole |
| MaintenanceOrder.UnannotatedControllerMeansWhole | ops/node-maintenance.sh:159-175 | in every state of every run whose `off`s name what is annotated when they start, a controller that is up and unannotated means nothing is shed |
| MaintenanceOrder.ControllerUpMeansNothingToHeal | ops/node-maintenance.sh:127-137 | with interruptions only between objects and `off`s that name what is annotated when they start, whenever the controller is up every other object is whole, so a self-heal changes no count |
| MaintenanceOrder.OffLeavesNothingToHealIff | ops/node-maintenance.sh:155-175 | after any history, an `off` that completes and restored the controller leaves it nothing to heal exactly when its list named everything that was annotated |
| MaintenanceOrder.CutListBreaksOrder | ops/node-maintenance.sh:61-72 | with nothing killed: `on`, then an `off` that got the controller's line alone, completes with the controller back and a workload still shed |
| MaintenanceOrder.OnKeepsOrderIff | ops/node-maintenance.sh:128-136 | after any history, an `on` that starts in order never sheds under a running controller exactly when the controller was not left annotated and running |
| MaintenanceOrder.InterruptedControllerUndoesShedding | ops/node-maintenance.sh:128-135 | killed between lines 134 and 135 at the controller and re-run, `on` completes and a self-heal brings a workload back |
| MaintenanceOrder.OnShedsAllIff | ops/node-maintenance.sh:123-137 | after any history, every completed `on` has its whole list at 0, whatever self-heals and failed reads come between, exactly when nothing on it was annotated and running and no running controller would bring back something annotated |
| MaintenanceScript.DropAppsOfName | ops/node-maintenance.sh:68-69 | the sed expression turns kubectl's name into the form used in SHED |
| MaintenanceScript.ListedLineIsDirectLine | ops/node-maintenance.sh:61-72 | an object listed by its namespace gets the very line that names it directly, so it is not shed twice |
| MaintenanceScript.Dedupe | ops/node-maintenance.sh:71 | keeps each line once, where it first occurs |
| MaintenanceScript.Targets | ops/node-maintenance.sh:45-72 | the controller first, no repeats, exactly the expanded lines |
| MaintenanceScript.ExpandComplete | ops/node-maintenance.sh:61-72 | when every listing succeeds, the list is everything SHED names; a failed one only loses lines |
| MaintenanceScript.FailedListingCutsList | ops/node-maintenance.sh:61-72 | a failed first listing leaves the controller's line alone |
| MaintenanceScript.Kubectl.On | ops/node-maintenance.sh:126-137 | the loop, with calls failing and self-heals in between, is a run of the transition system from one start |
| MaintenanceScript.Kubectl.Off | ops/node-maintenance.sh:155-176 | the same for restoring, the controller held back until the end |
| MaintenanceScript.Kubectl.Invoke | ops/node-maintenance.sh:123-124 | an `on` whose check does not pass touches nothing; otherwise an invocation is one run of the transition system |
| MaintenanceScript.CompletedOnSheds | ops/node-maintenance.sh:123-137 | when the loop of `on` completes, with nothing listed half shed or about to be brought back when it began, all of it is at 0 |
| MaintenanceScript.Kubectl.Maintain | ops/node-maintenance.sh:178-183 | any sequence of invocations conserves every count; a last `off` that completes makes the cluster whole exactly when its list named what was annotated when it began, for which naming all that any `on` listed is enough |
| Checks.Check | ops/node-maintenance.sh:77-121 | the loops and filters reach the verdict that the theorems below are about, with the exact report |
| Checks.VolumesReportedIff | ops/node-maintenance.sh:79-82 | no volume is reported exactly when each is detached or healthy |
| Checks.RolesRead | ops/node-maintenance.sh:103-105 | the federated accounts are exactly those with a role, in order |
| Checks.HasRoleArnIff | ops/node-maintenance.sh:109-111 | the pattern matches exactly when AWS_ROLE_ARN is one of the words after the first |
| Checks.FlaggedInIs | ops/node-maintenance.sh:103-112 | a namespace's report names exactly the running pods whose account federates and whose containers lack the variable |
| Checks.ReadyIff | ops/node-maintenance.sh:77-124 | for any cluster and whichever reads fail, the check of `on` passes exactly when volumes, if read, are detached or healthy and, in each namespace listed, accounts and pods, if both read, show every federated pod with credentials |
| Checks.StrictlyReadyIff | ops/node-maintenance.sh:77-121 | with set -e: exactly when the volumes and everything in the namespaces listed was read and is in order |
| Checks.ReadyMeansFit | ops/node-maintenance.sh:77-121 | when every read succeeds, the listing of namespaces included, Ready means the cluster is fit |
| Checks.UnreadPassesOn | ops/node-maintenance.sh:124 | whatever the cluster, with volumes and namespaces unread the check of `on` passes, while the plain check stops |
| Checks.UnhealthyVolumePassesOn | ops/node-maintenance.sh:79-124 | the check of `on` passes over an attached volume that is not healthy when its read fails |
| Checks.UnlistedNamespacesPass | ops/node-maintenance.sh:100-121 | with healthy volumes and a failed listing of the namespaces, either check is Ready whatever the pods |
| Checks.UnequippedPodPasses | ops/node-maintenance.sh:100-121 | such a cluster, with a federated pod that has no credentials |
| Percent.AwsEscape | images/findings-exporter/sigv4.go:194-206 | the loop computes the percent-encoding that decoding undoes |
| Percent.UnescapeOfEscape | images/findings-exporter/sigv4.go:193-206 | percent-decoding undoes the encoding on every byte string |
| Percent.EscapeIff | images/findings-exporter/sigv4.go:193-206 | of all texts that decode to a byte string the encoding is the one in which only letters, digits and "-_.~" stand for themselves and every triplet has upper-case digits |
| Percent.UnescapeIff | images/findings-exporter/sigv4.go:167-170 | decoding yields what a text stands for char by char, hex digits in either case, and fails if it stands for nothing |
| Percent.EscapeOrder | images/findings-exporter/sigv4.go:181-187 | encoding keeps the order of two strings exactly when they do not first differ in an unreserved below a reserved character |
| SigV4.BuildPath | images/findings-exporter/sigv4.go:162-174 | the loop over the slice of segments computes the canonical path |
| SigV4.SegmentsOfPath | images/findings-exporter/sigv4.go:162-174 | the canonical path splits into the canonical segments, as many as before |
| SigV4.SegmentsAre | images/findings-exporter/sigv4.go:162-174 | a segment that decodes comes out in the one form AWS accepts and decodes to the same; one that does not is left alone |
| SigV4.PathIdempotent | images/findings-exporter/sigv4.go:161-174 | canonicalising twice changes nothing, for any path |
| SigV4.PathsAgreeIff | images/findings-exporter/sigv4.go:161-174 | two validly escaped paths, the empty one standing for "/", have one canonical form exactly when their decoded segments agree |
| SigV4.BuildQuery | images/findings-exporter/sigv4.go:176-191 | whatever the map order, the query is the sorted, encoded list of all pairs |
| SigV4.QueryRoundTrip | images/findings-exporter/sigv4.go:176-206 | splitting on "&" and "=" and decoding gives back every pair as often as it was there |
| SigV4.QueriesAgreeIff | images/findings-exporter/sigv4.go:176-191 | two queries have one canonical form exactly when they hold the same multiset of pairs |
| SigV4.AwsOrderedIff | images/findings-exporter/sigv4.go:181-187 | the query is in the order AWS asks for exactly when no two of its pairs clash |
| SigV4.UnreservedNeverClash | images/findings-exporter/sigv4.go:181-187 | names and values of unreserved characters never clash |
| SigV4.UnreservedIsAwsOrdered | images/findings-exporter/sigv4.go:181-187 | unreserved names, and unreserved values of repeated names, are enough for AWS's order |
| SigV4.OutOfAwsOrder | images/findings-exporter/sigv4.go:181-187 | the query with the names "a-" and "a/" is not in AWS's order |
| Signing.CollectHeaders | images/findings-exporter/sigv4.go:119-126 | host and every header under its lower-case name, values joined and white space collapsed |
| Signing.CollapseIff | images/findings-exporter/sigv4.go:125 | the signed value is the one singly spaced text with the words of all values, a comma between values |
| Signing.HeaderMapUniqueIff | images/findings-exporter/sigv4.go:123-126 | the order in which the header map is walked never shows exactly when headers whose names differ in case only have one value |
| Signing.BuildCanonical | images/findings-exporter/sigv4.go:127-145 | assembles the canonical request and SignedHeaders |
| Signing.CanonicalRoundTrip | images/findings-exporter/sigv4.go:119-145 | from the joined text one reads back method, path, query, header map and payload hash, and SignedHeaders is the block's names |
| Signing.CanonicalInjective | images/findings-exporter/sigv4.go:138-145 | two canonical requests have one text exactly when all parts agree |
| Signing.SameTextIff | images/findings-exporter/sigv4.go:119-191 | two requests have one canonical text exactly when method, decoded path, query pairs, headers and hash agree |
| Signing.SignedHeadersAscend | images/findings-exporter/sigv4.go:127-136 | SignedHeaders lists each name once, strictly ascending |
| Signing.SignedRequestWellFormed | images/findings-exporter/sigv4.go:119-145 | what signV4 puts together always satisfies what the round trip needs |
| Signing.Request.SignV4 | images/findings-exporter/sigv4.go:108-159 | sets date, hash and token headers, signs these with all present ones, adds Authorization and changes nothing else |
| Signing.PreparedKeeps | images/findings-exporter/sigv4.go:110-117 | the date is set, a payload hash already there is kept, no other header changes |
| Signing.AlwaysSigned | images/findings-exporter/sigv4.go:110-126 | host, date and payload hash are always signed, and a session token if there is one |
| Signing.KeyFollowsScope | images/findings-exporter/sigv4.go:147-153 | the key is the secret with the parts of the scope hashed into it in their order |
| Signing.AuthorizationReads | images/findings-exporter/sigv4.go:148-158 | the Authorization header has credential and scope, signed headers and signature, word by word, the signature over algorithm, date, scope and hash line by line |
| Normalize.NormalizeId | images/kubescape-gate/main.go:115-122 | the slice form computes the normal form |
| Normalize.ReplaceFixedIff | images/kubescape-gate/main.go:109 | replacement leaves a text alone exactly when it has no run of eight or more hex digits |
| Normalize.RunBecomesStar | images/kubescape-gate/main.go:109 | a maximal run of eight or more becomes "*", and the text around it is replaced on its own |
| Normalize.NormalIdempotent | images/kubescape-gate/main.go:109-122 | idempotent, at most the last three segments, no long hex run in the last |
| Normalize.LastThreeCount | images/kubescape-gate/main.go:115-122 | of a longer ID the last three segments count and nothing before them; the last is the one replaced |
| Normalize.ShortIdKeepsAll | images/kubescape-gate/main.go:115-122 | a shorter ID keeps all its segments |
| Normalize.SameResourceIff | images/kubescape-gate/main.go:115-122 | two IDs normalise alike exactly when namespace and kind agree, and the name up to generated parts |
| Normalize.RenameIsNotNew | images/kubescape-gate/main.go:106-122 | IDs that differ only in a generated part of the last segment normalise alike |
| Pairs.KeyOrderIff | images/kubescape-gate/main.go:104 | for two different controls, ordering by "control resource" is ordering by control, whatever the resources, exactly when neither continues the other with a character not above the space |
| Pairs.KeyIsLexicographic | images/kubescape-gate/main.go:198 | for controls of characters above the space the sort is by control, then resource |
| Pairs.KeysCollideIff | images/kubescape-gate/main.go:104 | two controls can share a key exactly when one continues the other with a space |
| Pairs.KeyDetermines | images/kubescape-gate/main.go:104 | otherwise the key determines the pair |
| Pairs.KeyCollides | images/kubescape-gate/main.go:104 | two pairs with a space in a control can share a key |
| Gate.ParseScan | images/kubescape-gate/main.go:138-160 | exactly the failing normalised pairs and each control's last name; undecodable and empty scans are errors |
| Gate.ParseAccepted | images/kubescape-gate/main.go:164-188 | a result exactly if the reader got to the end and every line means something, and then exactly the pairs the lines spell; else the first bad line, or a read error |
| Gate.BlankIff | images/kubescape-gate/main.go:168-176 | a line is skipped exactly when there is only white space before its comment |
| Gate.AcceptIff | images/kubescape-gate/main.go:168-181 | a line accepts a pair exactly when before its comment it spells control, white space and resource, and the list can hold the pair |
| Gate.BadIff | images/kubescape-gate/main.go:177-181 | every other line is an error |
| Gate.Difference | images/kubescape-gate/main.go:191-200 | each pair of the difference once, sorted by key |
| Gate.DifferenceDeterminedIff | images/kubescape-gate/main.go:191-200 | what difference returns is a function of its two sets exactly when no two pairs of the difference share a key |
| Gate.BuildAlerts | images/kubescape-gate/main.go:212-241 | one alert per control in order of first appearance, with its resources in order |
| Gate.FirstMetFirst | images/kubescape-gate/main.go:212-220 | controls come in order of first appearance, whatever the order of the regressions |
| Gate.GroupsLoseNothing | images/kubescape-gate/main.go:212-222 | every regression is in exactly one group, as often as listed, whatever the order |
| Gate.GroupsInOrder | images/kubescape-gate/main.go:191-241 | over a sorted list in which no control continues another with a character not above the space, the groups laid end to end are the input, and controls ascend strictly |
| Gate.DifferenceGroups | images/kubescape-gate/main.go:191-241 | when no two controls of the difference straddle, difference has one result only, and its groups laid end to end are that result, controls ascending |
| Gate.PlainDifferenceGroups | images/kubescape-gate/main.go:191-241 | so it is for control IDs of characters above the space |
| GateRun.AlertReportsIff | images/kubescape-gate/main.go:231-235 | an alert's description gives its resources back exactly when none contains a newline |
| GateRun.AlertSays | images/kubescape-gate/main.go:223-238 | an alert's labels, its life time, and the number of resources its summary reads back as |
| GateRun.AlertsAreNamed | images/kubescape-gate/main.go:223-231 | each alert is for the control in its place, under the name the scan gave it |
| GateRun.AlertsReportIff | images/kubescape-gate/main.go:212-241 | the alerts report exactly the regressions exactly when every resource is one line |
| GateRun.Run | images/kubescape-gate/main.go:58-95 | nil exactly when scan and list could be compared and the regressions were none, unconfigured or delivered, and only if every line of the list means something; with an Alertmanager, nil then means every failing pair is accepted or reported by what was posted, and nothing else is, exactly when regressed resources are single lines |
| GateRun.NothingLostIff | images/kubescape-gate/main.go:79-95 | alerts built from the regressions report exactly the pairs that fail and are not accepted, if and only if their resources are single lines |
| GateRun.LosesNewline | images/kubescape-gate/main.go:231-235 | a scan whose resource ID keeps a newline: the alerts `run` posts do not report its failing pair |
| GateRun.ListableIff | images/kubescape-gate/main.go:168-181 | "control resource" reads back as the pair exactly when it is two words, starts "C-" and has no "#" |
| GateRun.AcceptableIff | images/kubescape-gate/main.go:164-188 | some list accepts a pair exactly when it is listable; no list silences a resource with a space or "#" in its name |
| GateRun.ListRoundTrip | images/kubescape-gate/main.go:164-188 | any set of listable pairs, with any spacing, comments and blank lines, reads back as that set |
| GateRun.SnapshotIsClean | images/kubescape-gate/main.go:79-80 | a list that is a snapshot of a scan yields no regressions and nothing stale |
| GateRun.SilenceableIff | images/kubescape-gate/main.go:79-88 | some readable list leaves no regressions of a scan exactly when every failing pair is listable |
| Prowler.NewestReport | images/findings-exporter/prowler.go:102-135 | over any finite chain of pages, the first key of the latest time among the reports of the whole listing; an error exactly if there is none or a request fails |
| Prowler.NewestIsFirstLatest | images/findings-exporter/prowler.go:121-125 | keeping strictly later reports finds the first of the latest |
| Prowler.ParseOcsf | images/findings-exporter/prowler.go:186-212 | the loop keeps the unmuted failures and rejects other documents |
| Prowler.OpenFindingsSelect | images/findings-exporter/prowler.go:195-208 | they are the ordered subsequence of exactly the results with status code FAIL that are not suppressed, each with its severity on the scale and its event code |
| Prowler.IsReportIff | images/findings-exporter/prowler.go:122 | a report is a key that ends in ".ocsf.json" |
| Prowler.ProwlerSource.CollectReport | images/findings-exporter/prowler.go:57-88 | one collection, with the cache keyed by object key |
| Prowler.ProwlerSource.DataTimes | images/findings-exporter/prowler.go:46-53 | the cached report's write time, once there is one |
| Prowler.CachedIsUncached | images/findings-exporter/prowler.go:57-88 | with write-once keys, over every run with failures anywhere, the cache answers what re-reading the newest report would, and the data time is that report's |
| Prowler.HitIsRightIff | images/findings-exporter/prowler.go:66-71 | if overwriting an object changes its time: a hit answers as re-reading would, under the right time, exactly when the listing shows the time the cache holds |
| Prowler.OverwrittenReportIsStale | images/findings-exporter/prowler.go:66-71 | a report with an open finding overwritten by one without: the cache goes on reporting the finding |
| Prowler.CacheOnlyHelps | images/findings-exporter/prowler.go:66-71 | the cache never fails where re-reading works, and a failed collection leaves it unchanged |
| ProwlerStore.EntryShowsReport | images/findings-exporter/prowler.go:46-88 | between rounds, whatever other pollers did and whatever failed, the shared store shows the open findings of the report that was newest at the last success, under its write time |
| ProwlerStore.MidRoundIsTorn | images/findings-exporter/main.go:137-146 | between `set` and `setDataTime` the entry has the new findings and the old data time |
| Tokens.GithubApp.Token | images/findings-exporter/githubapp.go:61-105 | reuse, exchange or error, and the new cache |
| Tokens.WebIdentity.GetCredentials | images/findings-exporter/sigv4.go:43-99 | the same for AWS, where a reply without a key is an error |
| Tokens.CallIsSafe | images/findings-exporter/githubapp.go:61-105 | a cached token is returned only with more than five minutes left; a failed exchange is an error and leaves the cache as it was |
| Tokens.ExchangesAreRare | images/findings-exporter/githubapp.go:64-67 | n successful exchanges span at least (n - 1) * 55 minutes |
| Tokens.WebIdentityExchangesAreRare | images/findings-exporter/sigv4.go:43-99 | the same for AWS credentials, from one-hour replies alone |
| Tokens.GrantsAreApart | images/findings-exporter/sigv4.go:46-48 | successive exchanges are at least 55 minutes apart, in any run of either cache |
| Tokens.GithubReusesIff | images/findings-exporter/githubapp.go:65-67 | after a one-hour grant the next 55 minutes come from the cache exactly when the token is not empty |
| Severity.CaseAndPaddingIgnored | images/findings-exporter/main.go:158-173 | letter case and the white space around a word do not matter |
| Severity.ScaleIsFixed | images/findings-exporter/main.go:158-173 | every severity lands on one of six words, and each of these stays where it is |
| Severity.WordsOfScale | images/findings-exporter/main.go:158-173 | which words each place on the scale has; anything else is unknown |
| Lists.SplitList | images/findings-exporter/main.go:197-205 | the trimmed, non-empty parts in order |
| Lists.ListRoundTrip | images/findings-exporter/main.go:197-205 | names written with any spacing and any empty entries between come back, in order |
| LinkHeader.FindNext | images/findings-exporter/sources.go:140-153 | the nested loops compute the first next target |
| LinkHeader.NextLinkRoundTrip | images/findings-exporter/sources.go:139-153 | reading a printed Link header (section 3 of RFC 8288) gives the target of its first next link, or nothing |
| Collectors.CollectGithub | images/findings-exporter/sources.go:89-119 | all pages of all repositories or an error, whatever the server answers to each request; then every wanted tool has exactly its alerts, in order, and each finding says what an alert of that tool says |
| Collectors.GhFindingMeans | images/findings-exporter/sources.go:125-137 | severity from the security severity, else from the level; the item is the rule, or for Trivy with a category that category without its trailing underscores; since is the creation time |
| Collectors.WhatDoesNotMatter | images/findings-exporter/sources.go:125-137 | with a security severity the level changes nothing, for other tools the category changes nothing |
| Collectors.FirstUrlIs | images/findings-exporter/sources.go:101 | a repository's first request, however many slashes end the base URL |
| Collectors.SelectIsSubsequence | images/findings-exporter/sources.go:108-114 | a tool's findings are the ordered subsequence of all its alerts |
| Collectors.PagesAreFollowed | images/findings-exporter/sources.go:102-116 | a server that pages with printed Link headers is visited page by page to the last |
| Collectors.CollectAlertmanager | images/findings-exporter/sources.go:31-59 | every configured source has exactly its alerts, in order, or an error; each finding says what an alert of that source says |
| Collectors.OtherLabels | images/findings-exporter/sources.go:43-55 | a label that is not one of the two its source uses changes nothing |
| EndToEnd.GateAlertIsFinding | images/findings-exporter/sources.go:49-51 | the gate's alert is read as a medium finding whose item is the control, open since the gate ran |
| EndToEnd.RegressionsAreFindings | images/kubescape-gate/main.go:212-241 | from the regressions to the exporter: under "kubescape" one medium finding for each control with a regression, in order |

## Left out

- HTTP, TLS, STS, S3, files, kubectl, JSON, XML, RSA, PEM and base64: inputs already decoded, or a choice of success and failure.
- SHA-256 and HMAC: uninterpreted, so nothing is said about signatures beyond what they are computed from.
- The wait for shed pods and the second check at the end of `on` (lines 139-152): they change nothing in the cluster.
- Pods of the Argo CD controller: the ordering theorems assume a controller scaled to 0 heals nothing (`NoLingering`); the conservation theorems do not.
- Two script runs at the same time, edits by other people during maintenance, and objects appearing or disappearing.
- Calendar formatting of `amzDate`; the signer takes the formatted date.
- Unicode white space and letter case outside ASCII, and the scanner's line-length limit.
- Time overflow, duration parsing, sleep intervals, logging, environment variables, HTTP server set-up.
- Collectors.CollectGithub: takes the finite chain of replies as given; an endless chain of next links would not end in the program either.
- Prowler.NewestReport: likewise for truncated listings.
- `images/dash`, `bootstrap/oidc/worker.js`, Ansible, Helm, network policies and dashboards: configuration, or a single decision each.
