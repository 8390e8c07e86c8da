# Rabbot SEO: a Dafny model of its alerting, configuration and crawl control

Rabbot is a site monitor. It groups detected problems into incidents and notifies about them, it
keeps a `config.yaml` and a table of sites in step while control requests edit the file, it
re-checks the proof of control of every site, and it derives crawl budgets from configuration. This
project models those parts and proves what they promise. `dafny verify dfyconfig.toml` checks it.

**Incidents.** `Identity` encodes what makes two events the same incident. `Throttling` holds the
sliding-hour cap, with the slices the source compacts in place. `IncidentStore` is the store
contract, `Alerts` the pipeline as a class over store, throttle and delivery log: every method is
proved equal to a function of the state. On those functions rest the results over whole runs:
`AlertRuns` (incidents refine a map from fingerprints to broken URLs), `DeliveryRuns` (delivery
accounting, dedup spacing), `Buckets` (the hourly cap by channel), `NotifyRules` (when an event is told of, and
what each step does to its row), `AccessRuns` (the access gate). `IncidentRaces` takes the
same calls apart into single store operations, with any number of workers and sweeps, failures and
clocks, and `IncidentOrder` says what every interleaving keeps. `DispatchRaces` adds the shared throttle
and the deliveries; `DispatchOrder` proves that concurrent calls amount to calls one at a time, and
`DispatchSpacing` that dedup spacing survives concurrency, failures and sweeps.
`SweepOrder` has the exact conditions under which the unlocked sweep does what it is for, `SweepRaces`
two runs in which it does not.

**Configuration.** `YamlTree` gives the document laws, `ConfigEdits`, `SetupWriters`, `Routes` and
`SearchConsole` the edits and what they promise. `YamlHeap` is the node tree in memory; `TreeEdits`,
`SetupEdits` and `ConfigWriters` are the writers in their own form - parse, walk, update nodes in
place, write back - each proved to compute the edit. `SiteStore` and `Reconcile` bring the table in
line with the file when any store operation may fail, `SiteBudgets` adds the budgets; `Hooks` puts
writers and reconcile together into the control hooks, and `HookRetries` retries one that failed.
`HookRaces`, `HookAgreement` and `HangupRace` interleave hooks and hang-ups.

**The rest.** `Reverify` is the living verification loop, `CrawlBudget` the budget arithmetic,
`Escapes` and `PathCodec` the printers with their parsers, `Calibrate` the SimHash distance and the
threshold search.

Where the code does not do what its comments say, the model follows the code:

- The throttle is documented as only ever slowing a site (`internal/config/throttle.go:88-91`). The
  sanity floor of 250 ms applies to verified sites only, so a smaller configured floor leaves an
  unverified site faster than the verified one (`CrawlBudget.SmallFloorIsLooser`;
  `UnverifiedIsNoLooser` has the exact condition).
- A route's match is compared by looking absent keys up as empty, so a wanted empty value matches
  another entry, which is then overwritten (`Routes.MatchEqualsIsEquality`, `EmptyValueOverwrites`). The
  two callers (`internal/cli/init.go:614`, `internal/cli/alerts_channels.go:63`) pass no match at all, so
  this concerns the function, not a use of it today.
- The path parser says it takes no sign (`internal/benchcorpus/benchcorpus.go:122`); it takes `+7`
  and `-0` (`PathCodec.ParsesMoreThanPrinted`).
- The sweep takes no lock, so a close need not last and what it closes need not be stale. A closed
  incident stays closed if and only if no ingest still holds it as open (`SweepOrder.StaysClosed`), and a
  close is of a stale incident if and only if nobody has refreshed it since the listing, or long enough ago
  (`SweepOrder.ClosesStale`); `SweepRaces` has a run for each failure.
- A hang-up reloads outside the lock of the hooks. File and table agree whenever that lock is free if no
  commit changes the valid URLs during a hang-up's reload (`HookAgreement.AgreementWhenFree`), and any one
  such commit can be undone in the table (`HangupRace.HangupUndoesHook`).
- An add whose reload failed, repeated past its checks, makes a duplicate entry exactly if the first did not
  get as far as enabling the row (`Hooks.Daemon.RetryAdd`). A file that does not load gets there, and the
  control plane can make one, since its gate checks keys and not values; so does a store that fails once
  (`HookRetries`).

Conventions: times and durations are integers in nanoseconds; a store failure is an explicit
parameter (`fail`, `fails`, `faulty`, `failing`), so that a contract can say what holds with it and that nothing
fails without it; ghost snapshots and logs exist for the proofs only.

## Model

| member | source | states |
|---|---|---|
| Identity.FingerprintIsIdentity | internal/alerts/fingerprint.go:35-59 | Two events get the same incident fingerprint if and only if site, change type and severity agree; only the change type has to be free of NUL. |
| Identity.NulInChangeTypeCollides | internal/alerts/fingerprint.go:37-43 | That condition is needed: with a NUL in the change type two different identities collide. |
| Identity.FingerprintBytes | internal/alerts/fingerprint.go:35-59 | The bytes that are hashed are site, an elided URL, change type and severity, with a NUL between. |
| Throttling.Window.Compact | internal/alerts/throttle.go:61-68 | Writing survivors over the slice being read leaves exactly the later-than-cutoff sends, in order. |
| Throttling.Window.Append | internal/alerts/throttle.go:72 | Appending adds the send at the end, in place or in a grown array. |
| Throttling.Throttle.Allow | internal/alerts/throttle.go:41-74 | The windows of all recipients after a call and its verdict, without touching another recipient's window. |
| Throttling.SlidingWindow | internal/alerts/throttle.go:37-74 | After any run with a clock that does not go back, a send is refused if and only if there is a cap, it is not critical, and exactly cap admissions lie in its trailing hour; every rolling hour holds at most cap; the pruned window is the trailing hour of the full history, and a critical send or one without a cap leaves every window alone. |
| Throttling.AllowTracks | internal/alerts/throttle.go:54-73 | One call decides on the pruned window as it would on the full history, and keeps the window and the cap faithful. |
| Throttling.ClockStepBackBreaksCap | internal/alerts/throttle.go:54-73 | The clock condition is needed: after a step back an hour can hold more than cap sends. |
| IncidentStore.Store.GetOpenIncident | internal/alerts/pipeline.go:18-34 | Finds the one open incident of a fingerprint, or none, or fails. |
| IncidentStore.Store.OpenIncident | internal/alerts/pipeline.go:18-34 | Inserts a row under a fresh id, with no members. |
| IncidentStore.Store.RemoveAlertMember | internal/alerts/pipeline.go:18-34 | Takes a member out and returns how many remain. |
| IncidentStore.InsertKeepsValid | internal/alerts/pipeline.go:219-233 | Opening after a failed lookup keeps at most one open incident per fingerprint. |
| IncidentStore.UpdateKeepsValid | internal/alerts/pipeline.go:204-216 | So does writing back the row that was read. |
| Alerts.Pipeline.MaybeDispatch | internal/alerts/pipeline.go:260-292 | One due notification becomes exactly one log entry: dispatched, digested or suppressed, by cap, sink and severity filter, under its channel's key. |
| Alerts.Pipeline.Ingest | internal/alerts/pipeline.go:182-243 | The whole new state and outcome of an event, with a failure at any store call or at the dispatch. |
| Alerts.Pipeline.Accrue | internal/alerts/pipeline.go:195-217 | The branch for an open incident: member, count, dedup window, update, notification. |
| Alerts.Pipeline.Open | internal/alerts/pipeline.go:219-242 | The branch for a new incident: row, first member, notification. |
| Alerts.Pipeline.Resolve | internal/alerts/pipeline.go:311-332 | The whole new state of a recovery: member removed, incident closed only when none remains. |
| Alerts.Pipeline.HasOpenMember | internal/alerts/pipeline.go:344-349 | Answers whether the URL is a member of its open incident, or passes on the store's error; an event without a URL asks nothing. |
| Alerts.Pipeline.HandleFetchClass | internal/alerts/access.go:41-75 | The whole new state of the access gate: one ingest for a bad class, two resolves for an ok fetch, the first failure ending it. |
| Alerts.Pipeline.AutoCloseStale | internal/alerts/timers.go:21-35 | The stale incidents of the listing are closed up to the first whose close fails, and no other; the sweep fails if and only if the listing or the close of some stale incident fails. |
| AlertRuns.IngestRefines | internal/alerts/pipeline.go:182-243 | Seen as a map from fingerprints to URL sets, an ingest adds the URL to its own set and touches no other. |
| AlertRuns.ResolveRefines | internal/alerts/pipeline.go:311-332 | A resolve takes the URL out and drops the entry when its set is empty; other entries stay. |
| AlertRuns.SweepRefines | internal/alerts/timers.go:21-35 | A sweep keeps or drops entries, and never changes a set. |
| AlertRuns.RunKeepsValid | internal/alerts/pipeline.go:182-332 | Over any run, with any failures, at most one incident per fingerprint is open. |
| AlertRuns.RunAgrees | internal/alerts/pipeline.go:182-332 | Over any run without sweeps and failures, an incident is open if and only if some URL of it is broken, and its members are exactly the broken URLs. |
| AlertRuns.RunBounded | internal/alerts/timers.go:21-35 | With sweeps anywhere, complete or cut short, members of an open incident are broken URLs. |
| AlertRuns.AgreementNeedsUrl | internal/alerts/pipeline.go:245-253 | An ingest keeps that agreement if and only if its event names a URL or the incident was open already. |
| DeliveryRuns.DeliveryAccounting | internal/alerts/pipeline.go:260-278 | Over any run with succeeding store calls, due notifications are dispatches plus digested plus suppressed, each exactly once. |
| DeliveryRuns.RunIsProper | internal/alerts/pipeline.go:260-278 | Criticals are always dispatched; digesting and suppressing need a sink and a positive cap, and the severity filter decides which of the two. |
| DeliveryRuns.NoSinkDispatchesAll | internal/alerts/pipeline.go:273-276 | Without a digest sink every due notification is dispatched. |
| DeliveryRuns.ChannelCap | internal/alerts/pipeline.go:280-292 | With a sink and a cap no throttle key gets more than cap non-critical messages in any rolling hour, across all incidents; `Buckets` says whose key it is. |
| Buckets.CapPerBucket | internal/alerts/pipeline.go:280-292 | With a sink and a cap, no channel an event is routed to - and, unrouted, no site at a severity - gets more than cap non-critical messages in any rolling hour, across all incidents and whatever fails. |
| Buckets.HeldBackWhenFull | internal/alerts/pipeline.go:255-292 | And a non-critical alert goes out if and only if fewer than cap went to its own channel, or unrouted bucket, in the hour before, provided no channel is named like an unrouted bucket. |
| DeliveryRuns.DedupSpacing | internal/alerts/pipeline.go:204-216 | Successive notifications of an incident are at least the dedup window apart, whatever the clock does, so the n-th comes n windows after the first at the earliest. |
| DeliveryRuns.AffectedCountIsExact | internal/alerts/pipeline.go:204-205 | The affected count is the number of events ingested into the incident. |
| NotifyRules.RenotifiesAfterWindow | internal/alerts/pipeline.go:204-242 | After any run with succeeding store calls, an event that finds no open incident opens one and is told of; one that finds its incident open is told of, once, if and only if the last telling lies at least the dedup window back, and otherwise nobody is told. |
| NotifyRules.OnlyIngestsTell | internal/alerts/pipeline.go:294-332 | Resolves and sweeps tell nobody and leave the throttle alone. |
| NotifyRules.RowKeepsOrigin | internal/alerts/pipeline.go:219-233 | Every row of a run was opened by one of its events, and whatever happens or fails keeps that event's site, type, severity and time. |
| NotifyRules.NotificationIsRight | internal/alerts/pipeline.go:364-383 | A notification's related count is the number of events that landed on its incident before, and its group key is the event's site and type. |
| NotifyRules.LandingRefreshes | internal/alerts/pipeline.go:195-233 | An event that lands leaves its incident open, refreshed at its time, and counted. |
| NotifyRules.RecoveryCloses | internal/alerts/pipeline.go:311-332 | The recovery of the last member closes the incident, as recovered and not as automatic; any other changes no row. |
| NotifyRules.SweepClosesIdle | internal/alerts/timers.go:21-35 | A sweep that is not cut short closes, and stamps as automatic, exactly what was not updated for the auto-close period or longer. |
| NotifyRules.IngestFails | internal/alerts/pipeline.go:182-243 | An ingest fails if and only if a call that it gets to fails; a store failure tells nobody and leaves the windows alone. |
| NotifyRules.ResolveFails | internal/alerts/pipeline.go:311-332 | So does a resolve, which gets to the close only with the last member; a failed one changes no row. |
| AccessRuns.GateMembers | internal/alerts/access.go:20-75 | After any run of gated fetches and other events, a URL is a member of its site's monitoring_blocked incident if and only if a soft or hard block came after its last ok fetch, and of monitoring_unreachable if and only if an unreachable fetch did; each is open if and only if it has such a URL. |
| AccessRuns.GateOpens | internal/alerts/access.go:41-60 | The incident a bad fetch opens is critical, of the fetch's own site and of the type of its class, dated by the gate's clock. |
| AccessRuns.GateVerdict | internal/alerts/access.go:32-75 | The gate lets a fetch through if and only if it is ok; it fails if and only if a call it makes fails, and a first recovery that fails leaves the second undone. |
| AccessRuns.GateTouchesOnlyItsOwn | internal/alerts/access.go:41-75 | A gated fetch changes no incident but its site's two operational ones. |
| AccessRuns.OperationalFingerprints | internal/alerts/access.go:20-30 | An operational event belongs to the incident of its own site and its own operational type, and to no other of them. |
| IncidentOrder.MutualExclusion | internal/alerts/pipeline.go:144-150 | Under every interleaving of single store calls and sweeps, one worker per fingerprint at most is between lookup and last write, and one incident per fingerprint at most is open. |
| IncidentOrder.TablesFollowHistory | internal/alerts/pipeline.go:182-332 | Under every interleaving, members are broken in the order the calls took effect; exactly the broken URLs until a sweep closes something; and, if every event names a URL, an idle fingerprint is open if and only if one is broken. |
| IncidentOrder.Linearizable | internal/alerts/pipeline.go:307-314 | For member sets alone: without failures and sweeps every returned call took effect exactly once, and, if every event names a URL, the members shown are those of running the calls one at a time in that order. |
| IncidentOrder.HistoryGrows | internal/alerts/pipeline.go:144-150 | That order only grows at its end, so calls that do not overlap keep their order. |
| DispatchOrder.Linearizable | internal/alerts/pipeline.go:182-292 | Without store failures and closes by a sweep there is an order of the calls, each returned one once, in which running them one at a time gives the same throttle windows, the same delivery log up to incident ids, and the same open incident - row and members - of every idle fingerprint. |
| DispatchOrder.RealTimeOrder | internal/alerts/pipeline.go:144-150 | In that order a call that has returned comes before one that has not begun. |
| DispatchOrder.ConcurrentDelivery | internal/alerts/pipeline.go:255-292 | So with concurrent callers too no channel, and no site at an unrouted severity, gets more than cap non-critical messages in any rolling hour, and every due notification is dispatched, digested or suppressed exactly once. |
| DispatchOrder.ConcurrentVerdict | internal/alerts/pipeline.go:255-292 | And a non-critical alert goes out if and only if its own bucket was not full when the throttle decided. |
| DispatchOrder.EachCarriedOutOnce | internal/alerts/pipeline.go:260-278 | Under every interleaving, with any failures and sweeps, no decision of the throttle is carried out twice, and once no call is on its way out each has been. |
| DispatchSpacing.ConcurrentSpacing | internal/alerts/pipeline.go:195-217 | Under every interleaving, with any failures, sweeps and clock readings, successive notifications of an incident are at least the dedup window apart. |
| DispatchRaces.IngestShows | internal/alerts/pipeline.go:182-243 | What an ingest leaves of its fingerprint's open incident, row and members, depends on what was open, not on ids; other fingerprints stay. |
| SweepOrder.StaysClosed | internal/alerts/timers.go:21-35 | In every reachable state a closed incident stays closed in every continuation if and only if no ingest has read it as open without having written it back. |
| SweepOrder.ClosesStale | internal/alerts/timers.go:19-31 | Under every interleaving, what a sweep closes is open and stale at that moment if and only if nobody has written its row since it was listed, or the last write was a refresh already old enough by the sweep's clock. |
| SweepOrder.RowFollows | internal/alerts/pipeline.go:204-211 | Over any run an incident's row is what the last write to it made it: refreshed by an ingest, or closed by a resolve or a sweep. |
| SweepOrder.FailureEndsSweep | internal/alerts/timers.go:21-35 | Under every interleaving a close that fails ends its sweep: it changes nothing and never comes to close anything again. |
| SweepRaces.IngestReopensSwept | internal/alerts/timers.go:21-34 | That condition can fail: a reachable run in which a worker's update reopens what the sweep has just closed. |
| SweepRaces.SweepClosesFresh | internal/alerts/timers.go:23-31 | So can this one: a reachable run in which the sweep closes an incident that is no longer stale. |
| YamlTree.SetGet | internal/config/mutate.go:142-169 | After a set the key reads back, every other key reads as before, and the key nodes keep their order. |
| YamlTree.SetSet | internal/config/mutate.go:157-169 | Of two sets of a key the last one counts. |
| YamlTree.GetSet | internal/config/mutate.go:157-169 | Setting what is there changes nothing. |
| YamlTree.DeleteGet | internal/config/mutate.go:177-188 | With distinct keys a delete removes the key, keeps every other, and keeps keys distinct. |
| YamlTree.PutGet | internal/config/mutate.go:706-720 | A value written at a dotted path reads back, through whatever was on the way. |
| YamlTree.PutPut | internal/config/mutate.go:706-720 | Two writes at a path are the last one. |
| YamlTree.GetPut | internal/config/mutate.go:706-720 | Writing what is there changes nothing. |
| YamlTree.PutElsewhere | internal/config/mutate.go:706-720 | Paths that are neither prefix nor extension of the written one read as before. |
| YamlTree.PutKeepsKeyOrder | internal/config/mutate.go:154-169 | Every mapping on the way keeps its key nodes in order; a new key goes last. |
| YamlTree.PutKeepsProper | internal/config/mutate.go:706-720 | Keys stay unique everywhere in the document. |
| Decimal.ParseItoa | internal/config/mutate.go:239 | What Itoa prints, ParseInt reads, for every 64-bit integer. |
| Decimal.SignedNumbers | internal/config/mutate.go:748-752 | Digits, with or without a sign, parse to their value exactly if it fits in 64 bits. |
| Decimal.OnlyNumbersParse | internal/config/mutate.go:748-752 | Nothing else parses. |
| ConfigEdits.SplitDotted | internal/config/mutate.go:728-743 | The byte loop computes the non-empty segments. |
| ConfigEdits.SegmentsOfJoin | internal/config/mutate.go:728-743 | Joining clean segments with dots and splitting gives them back. |
| ConfigEdits.JoinOfSegments | internal/config/mutate.go:728-743 | Joining the segments of any key gives a tidy key - no dot at an end, no two in a row - with the same segments, and the key itself if and only if it is tidy. |
| ConfigEdits.InferScalarOfInt | internal/config/mutate.go:748-756 | A printed 64-bit integer is written as an integer with the same digits. |
| ConfigEdits.InferScalarKinds | internal/config/mutate.go:748-756 | The text is never changed; it is an integer exactly if it parses as a 64-bit one, a boolean exactly for the two words, else a string. |
| ConfigEdits.SetKeyTwice | internal/config/mutate.go:695-723 | Setting a key twice is setting it to the last value. |
| ConfigEdits.SetKeyReadsBack | internal/config/mutate.go:695-723 | Setting succeeds if and only if the file loads and the key has a segment; then the key reads back, and every path that is neither prefix nor extension of it reads as before. |
| ConfigEdits.SiteReadsBack | internal/config/mutate.go:223-240 | A site written as an entry reads back with every field. |
| ConfigEdits.SiteOmitsUnset | internal/config/mutate.go:223-240 | The entry has a key for each field that is set and none for one that is not. |
| ConfigEdits.CommentsSurviveAdds | internal/config/mutate.go:43-76 | The comment of a blank file, and of a list that was null, is still there after an add. |
| ConfigEdits.AddSiteUrls | internal/config/mutate.go:196-244 | Adding a site appends its URL to those the loader reads and leaves every other key alone. |
| ConfigEdits.RemoveSiteUrls | internal/config/mutate.go:483-516 | Removing a site takes out every entry with the URL, keeps the rest in order, and leaves every other key alone. |
| ConfigEdits.AllowedKeyIsHarmless | internal/config/allowlist.go:40-79 | A control-plane key that is let through reads back and changes nothing under notifiers, database, data_dir, sites and the unverified throttle. |
| ConfigEdits.SevenKeys | internal/config/allowlist.go:40-84 | The gate lets a key through if and only if it is one of the seven listed. |
| SetupWriters.NotifierTwice | internal/config/mutate.go:350-365 | Re-adding a named notifier, with whatever new fields, succeeds and leaves what the last add alone would. |
| SetupWriters.NotifierInPlace | internal/config/mutate.go:262-369 | A name that was unique stays unique, other entries stay in place, other keys are untouched, and the notifier is there. |
| Routes.NotifierReadsBack | internal/config/mutate.go:288-348 | A notifier written as an entry reads back with every field, recipient and header, if and only if its port is not negative. |
| Routes.NotifierOmitsUnset | internal/config/mutate.go:288-348 | The entry has a key for each field that is set and none for one that is not. |
| Routes.UnnamedGoesLast | internal/config/mutate.go:350-440 | Without a name, or a notifier, nothing is recognised: the entry goes last. |
| Routes.RouteReadsBack | internal/config/mutate.go:411-423 | A route written as an entry reads back. |
| Routes.RenderReads | internal/config/mutate.go:414-420 | A map rendered with sorted keys reads back as the same map. |
| Routes.AllEqual | internal/config/mutate.go:460-465 | The comparison loop decides equality on the wanted keys, absent ones read as empty. |
| Routes.MatchEqualsIsEquality | internal/config/mutate.go:449-466 | The comparison is map equality for a wanted map if and only if that map has no empty value. |
| Routes.RouteTwice | internal/config/mutate.go:383-440 | Re-adding a route leaves what one add leaves, for every document and every match. |
| Routes.RouteInPlace | internal/config/mutate.go:386-445 | Without empty match values one entry per notifier and match stays one, the others stay in place, and other keys are untouched. |
| Routes.EmptyValueOverwrites | internal/config/mutate.go:449-466 | With an empty match value a different route of the same notifier is overwritten. |
| SortedKeys.SortKeys | internal/config/mutate.go:470-477 | Collected in any order, the keys come out strictly sorted and complete. |
| SortedKeys.LessIsLexicographic | internal/config/mutate.go:468-477 | Sorted means: where two keys first differ decides, and a proper prefix comes first. |
| SortedKeys.SortedIsUnique | internal/config/mutate.go:468-477 | There is one such order, so the rendering is determined. |
| SearchConsole.BlockReadsBack | internal/config/mutate.go:663-681 | Whatever the block held, it reads exactly as given and its other keys are untouched. |
| SearchConsole.GSCReadsBack | internal/config/mutate.go:639-688 | The named site's block reads as given; no other site's block, no URL and no other key changes; writing again changes nothing. |
| SearchConsole.GSCValidates | internal/config/gsc.go:91-130 | With a valid block the configuration passes if its other entries do, even if this one did not before. |
| SearchConsole.GSCAccepts | internal/config/gsc.go:91-130 | What is accepted: no block at all, or a good property with the one credential file its mode needs and not the other. |
| SearchConsole.PropertyForms | internal/config/gsc.go:132-157 | A domain property is a non-empty rest without slash, blank or tab; any other has to be a web address. |
| YamlHeap.FindKey | internal/config/mutate.go:146-150 | The pair scan finds the first key node with the value, if a value follows. |
| YamlHeap.MapValueOf | internal/config/mutate.go:142-152 | mapValue on the node tree returns the node holding the key's value, or null. |
| YamlHeap.SetMapValueOf | internal/config/mutate.go:157-169 | setMapValue in place computes the document edit, keeps the tree free of sharing, and puts the given node in the slot. |
| YamlHeap.DeleteMapKeyOf | internal/config/mutate.go:177-188 | deleteMapKey in place computes the document edit and reports whether there was a key. |
| YamlHeap.PlugHolds | internal/config/mutate.go:706-722 | An update deep in the tree is, from the root, the same update of the document. |
| TreeEdits.LoadDocRoot | internal/config/mutate.go:43-76 | The root mapping as it is, or an empty one for a file that is missing, blank - with its comment - or null; an error exactly for a file that cannot be read and a document that is neither a mapping nor null. |
| TreeEdits.Walk | internal/config/mutate.go:706-717 | The walk creates and enters mappings so that one set at its end is the whole path write. |
| TreeEdits.EnsureList | internal/config/mutate.go:202-216 | The list under a key: created, promoted from null in place with its comment, or refused. |
| SetupEdits.MatchEqualsOf | internal/config/mutate.go:449-466 | The comparison on nodes is the comparison on the document. |
| SetupEdits.FirstRoute | internal/config/mutate.go:428-441 | The search loop finds the first entry with the notifier and a matching map. |
| SetupEdits.WriteSiteTo | internal/config/mutate.go:661-681 | The in-place edit of a site entry is the edit of the document. |
| ConfigWriters.ConfigFile.WriteDocRoot | internal/config/mutate.go:80-97 | The file becomes the document, or the write fails and it stays as it was. |
| ConfigWriters.ConfigFile.SetKeyYAML | internal/config/mutate.go:695-723 | It succeeds if and only if the key has a segment, the file loads and the write goes through; the file is then the path write of the loaded document, else unchanged. |
| ConfigWriters.ConfigFile.AddSiteYAML | internal/config/mutate.go:196-244 | It succeeds if and only if the document takes the site and the write goes through; the file is then the document with the site appended, else unchanged. |
| ConfigWriters.ConfigFile.RemoveSiteYAML | internal/config/mutate.go:483-516 | The file is rewritten without the URL's entries if there is one, and only then a failing write is an error; found says whether entries were removed. |
| ConfigWriters.ConfigFile.AddNotifierYAML | internal/config/mutate.go:262-369 | The file after the call is the notifier upsert of the loaded document, or unchanged on an error, that of the write included. |
| ConfigWriters.ConfigFile.AddRouteYAML | internal/config/mutate.go:386-445 | The file after the call is the route upsert of the loaded document, or unchanged on an error, that of the write included. |
| ConfigWriters.ConfigFile.SetSiteGSCYAML | internal/config/mutate.go:639-688 | The file is rewritten with the block of the first site that has the URL; found says whether that was done, and an error leaves the file unchanged. |
| SiteStore.SiteDB.AddSite | internal/cli/reconcile.go:98-112 | Inserts an enabled row under a new id unless the base URL is taken. |
| SiteStore.SiteDB.SaveVerification | internal/cli/reverify.go:24-28 | Replaces one row's proof, or fails and changes nothing. |
| Reconcile.ReconcileOne | internal/cli/reconcile.go:52-169 | One entry ends with its row enabled and budgeted - by its own proof if no store operation failed - or in an error; other rows are untouched. |
| Reconcile.DisableOthers | internal/cli/reconcile.go:178-190 | Only rows outside the configuration are disabled, none is deleted. |
| Reconcile.ReconcileSites | internal/cli/reconcile.go:39-191 | No row goes, ids, URLs and proofs stay; whatever fails, no configured enabled site is disabled; without a fault it succeeds. Then rows are enabled exactly if configured, and each has the budget its last entry gives its own proof, or, after a fault that was survived, no proof. |
| Reconcile.ConvergedIsExact | internal/cli/reconcile.go:39-191 | After success the enabled base URLs are the valid configured ones. |
| Reconcile.SecondPassIsQuiet | internal/cli/reconcile.go:39-191 | A second pass adds no row and changes no enabled flag. |
| SiteBudgets.ReconcileThrottles | internal/cli/reconcile.go:73-133 | With the real budgets, after a successful pass every enabled site that is not verified is within the unverified floor and, if no store operation failed, every verified one has the verified tier of its last entry. |
| SiteBudgets.UnverifiedRowsAreThrottled | internal/cli/reconcile.go:243-263 | Also if its proof could not be read. |
| SiteBudgets.VerifiedRowsAreLifted | internal/cli/reconcile.go:123-133 | The verified tier: the configured concurrency and the entry's own interval before the default. |
| Hooks.Daemon.Reload | internal/cli/run.go:577-602 | Load, then reconcile: a file that loads becomes live, even if the table cannot be brought in line; on success the enabled URLs are the file's valid ones; a file that does not load changes nothing. |
| Hooks.Daemon.CheckDuplicate | internal/cli/run.go:1351-1363 | Only an enabled row is a duplicate; a lookup error is an error. |
| Hooks.Daemon.AddSite | internal/cli/run.go:1011-1060 | Refused exactly for an invalid URL or an enabled one; an error exactly if the lookup, the edit or the write fails, without a change; otherwise the URL is appended, and after a successful reload the enabled sites are the file's valid ones and agreement is kept; an id comes back unless the last lookup fails. |
| Hooks.Daemon.RemoveSite | internal/cli/run.go:1061-1083 | An error exactly if the lookup, the edit or a needed write fails, without a change; otherwise the URL leaves the file and, after a successful reload, the enabled set; the row goes exactly if purging was asked for and nothing failed; agreement is kept. |
| Hooks.Daemon.SetConfig | internal/cli/run.go:1084-1108 | A key is refused if and only if the gate refuses it, without a change; an error means the file does not load or cannot be written; otherwise the key is written, the listed URLs stay, and agreement is kept. |
| Hooks.Daemon.Serve | internal/cli/run.go:1011-1108 | Any run of requests, up to the first failed reload, keeps file and table in agreement. |
| Hooks.AddReadsBack | internal/config/mutate.go:196-244 | The loader reads the old sites, unchanged, and the new one with all its fields. |
| Hooks.RemoveReadsBack | internal/config/mutate.go:483-516 | The loader reads the other sites, unchanged and in order. |
| Hooks.Daemon.RetryAdd | internal/cli/run.go:1036-1051 | An add repeated after a failed reload: past its checks it is turned away if and only if the first got as far as enabling the row, and otherwise the URL is listed twice; always so if what failed was the load. |
| Hooks.Daemon.RetryDuplicates | internal/cli/run.go:1036-1051 | With a file that loads after neither add, both adds fail, no row changes, and the URL is listed twice. |
| Hooks.Daemon.RetryAccepted | internal/cli/run.go:1036-1051 | With a file that loads and a store that fails once, at the first call of the reload, the second add is accepted and the URL is listed twice. |
| HookRetries.WordForPageCap | internal/config/allowlist.go:40-84 | The gate checks keys, not values: set_config writes a word as the page cap, which must be an integer for the file to load. |
| HookRetries.DuplicateByRetry | internal/cli/run.go:1011-1108 | So from an empty configuration three requests - that key, and a site twice - all fail their reload and leave the site listed twice and no row. |
| HookRetries.AcceptedDuplicate | internal/cli/run.go:1036-1051 | From an empty configuration, with one store fault, a repeated add is accepted and leaves the site listed twice. |
| Hooks.RemoveTakesBoth | internal/cli/run.go:1061-1083 | One remove takes both entries out. |
| HookRaces.NoLostUpdate | internal/cli/run.go:319-334 | Under every interleaving of hooks and hang-ups the file is the committed edits applied in order, and a call is among them, once, exactly if it reports its write. |
| HookRaces.NeverStuck | internal/cli/run.go:328-332 | In every reachable state with an unfinished call some step is possible. |
| HookAgreement.AgreementWhenFree | internal/cli/run.go:1011-1108 | With any number of hooks and hang-ups, whenever the write lock is free the file lists no URL twice and the enabled sites are its valid URLs, if no step changes the valid URLs while a hang-up is between its load and its return. |
| HookAgreement.OnlyCommitsDisturb | internal/cli/run.go:1036-1070 | The only steps that change the listed URLs are the writes of an add or a remove. |
| HookAgreement.HooksAloneAreQuiet | internal/cli/run.go:319-334 | Without hang-ups that condition holds of every run. |
| HangupRace.HangupUndoesHook | internal/cli/run.go:695-711 | The condition is needed: from every file and table in agreement, and for every hook past its check whose edit goes through, there is a run with one hang-up that ends with the edit in the file and the table from before it - in disagreement if and only if the edit changes the valid URLs. |
| HangupRace.HangupDisablesFreshSite | internal/cli/run.go:695-711 | From any file and table in agreement, any valid URL that is not listed and can be added ends up configured and disabled, with everybody finished. |
| HangupRace.HangupEnablesRemovedSite | internal/cli/run.go:695-711 | Likewise any enabled URL ends up removed and still enabled. |
| Reverify.ReverifyOne | internal/cli/reverify.go:74-142 | One site's row is as before or as re-checking makes it, and the latter if nothing fails; the result says whether a verified site stopped being one. |
| Reverify.ReverifyAll | internal/cli/reverify.go:64-145 | Under any faults and cancellation the count is the number of sites that went from verified to not verified; a finished pass misses at most one site per fault, and without a fault it counts exactly the sites whose proof has vanished. |
| Reverify.FinishedPass | internal/cli/reverify.go:74-142 | After a finished pass without a fault an enabled verified site without a method is throttled and stamped, one that was cleanly missed has the verifier's record, one whose proof holds keeps it with a new stamp, and one without an answer is as it was; so is every other site. |
| Reverify.CheckedOnlyDemotes | internal/cli/reverify.go:30-62 | Nothing is promoted, attested and disabled rows stay, a proof that holds keeps method, token and time, and demotion needs a missing method or a clean miss. |
| Reverify.CountsAddUp | internal/cli/reverify.go:58-63 | Over any number of passes, whatever the verifier answers in each, the counts plus the sites still verified are the sites verified at first. |
| Reverify.ProofSurvives | internal/cli/reverify.go:126-138 | A site still verified after any number of passes has its original method, token and verification time. |
| CrawlBudget.ScaleIsAntitone | internal/config/throttle.go:160-169 | A faster dial never widens the spacing, without overflow. |
| CrawlBudget.ScaleIsMonotone | internal/config/throttle.go:160-169 | A wider base never narrows it. |
| CrawlBudget.ScaleIsIdentityAt100 | internal/config/throttle.go:160-169 | At 100, or unset, the dial is the identity if and only if the hundredfold fits in 64 bits. |
| CrawlBudget.ScaleIsExact | internal/config/throttle.go:160-169 | The dial divides the hundredfold and rounds down, without overflow: below 100 it slows a site, above it speeds it up. |
| CrawlBudget.UnverifiedStaysWithinFloor | internal/config/throttle.go:99-133 | Whatever is configured, an unverified site has rate, concurrency, pages and interval within the floor, and pages are never unlimited. |
| CrawlBudget.UnverifiedGetsTheTighter | internal/config/throttle.go:117-133 | In every component it gets the floor or its own configuration. |
| CrawlBudget.VerifiedGetsItsConfiguration | internal/config/throttle.go:99-115 | A verified site gets its own page cap and interval before the defaults, the configured concurrency, and the configured spacing divided by its dial but never below the sanity floor. |
| CrawlBudget.UnverifiedIsNoLooser | internal/config/throttle.go:99-133 | It is no looser than the verified tier in every component if and only if the floor rate or the scaled rate reaches the sanity floor. |
| CrawlBudget.UnverifiedIsNoLooserElsewhere | internal/config/throttle.go:116-132 | In every component but the rate it always is. |
| CrawlBudget.VerifiedKeepsSanityFloor | internal/config/throttle.go:26-32 | A verified site keeps the sanity floor whatever its dial says. |
| CrawlBudget.SmallFloorIsLooser | internal/config/throttle.go:106-127 | A configuration with a small positive floor in which verification slows the site down. |
| CrawlBudget.FasterIsNoWider | internal/config/throttle.go:99-133 | The dial reaches the resolved rate in both tiers and nothing else. |
| Escapes.WriteJSONString | internal/benchcorpus/text.go:102-128 | The loop appends exactly the literal to the buffer. |
| Escapes.JSONRoundTrip | internal/benchcorpus/text.go:102-135 | For all bytes and any suffix, a parser of RFC 8259, section 7, reads the literal back and leaves the suffix. |
| Escapes.JSONEscapesWhatItMust | internal/benchcorpus/text.go:102-135 | Only what RFC 8259, section 7, demands is escaped, in the shortest form there is for it, hex digits in lower case. |
| Escapes.WriteEscaped | internal/benchcorpus/text.go:80-95 | The loop appends exactly the escaped bytes. |
| Escapes.HTMLRoundTrip | internal/benchcorpus/text.go:80-95 | Decoding the four entities gives the bytes back. |
| Escapes.HTMLEscapesFour | internal/benchcorpus/text.go:80-95 | Only the four characters are touched, and each becomes its own entity. |
| Escapes.HTMLIsInert | internal/benchcorpus/text.go:73-79 | The output has no raw less-than, greater-than or quote. |
| PathCodec.ParseOfPath | internal/benchcorpus/benchcorpus.go:86-131 | Every printed path with an index from 0 to the largest 64-bit integer parses to its class and index. |
| PathCodec.PathNames | internal/benchcorpus/benchcorpus.go:64-92 | What is printed: the name of the class - landing for an undefined one - and the index. |
| PathCodec.ParsesExactly | internal/benchcorpus/benchcorpus.go:90-131 | A path parses to a class and an index if and only if it is that class's name, a slash and a numeral of the index, with any slashes around. |
| PathCodec.NegativeDoesNotParse | internal/benchcorpus/benchcorpus.go:126-129 | A path printed from a negative index is rejected. |
| PathCodec.Normalises | internal/benchcorpus/benchcorpus.go:90-131 | Printing a parse gives a path that parses the same. |
| PathCodec.ExactlyTheCanonic | internal/benchcorpus/benchcorpus.go:99-104 | Printing the parse gives the path back if and only if it is one slash, a class name, one slash and a plain decimal. |
| PathCodec.ParsesMoreThanPrinted | internal/benchcorpus/benchcorpus.go:105-129 | Signs, leading zeros and any number of slashes around are accepted too. |
| Calibrate.HammingIsMetric | internal/diff/simhash.go:16-19 | The distance is zero exactly for equal words, symmetric, at most 64, and obeys the triangle inequality. |
| Calibrate.HammingCounts | internal/diff/simhash.go:16-19 | It is the number of positions where the words differ. |
| Calibrate.ClassifyCounts | internal/diff/simhash.go:21-28 | Cosmetic means at most threshold such positions, and anything else is substantive. |
| Calibrate.CorrectCounts | internal/diff/calibrate.go:17-28 | The number of correct samples is that of those classified as expected. |
| Calibrate.WiderKeepsCosmetic | internal/diff/simhash.go:21-28 | A wider threshold keeps every cosmetic verdict. |
| Calibrate.CalibrationAccuracy | internal/diff/calibrate.go:17-28 | The loop counts the samples classified as expected. |
| Calibrate.CalibrateThreshold | internal/diff/calibrate.go:34-42 | For a non-empty range the result is the lowest of the thresholds with the most correct samples; for an empty one the lower bound. |
| Calibrate.LowestBestIsUnique | internal/diff/calibrate.go:30-33 | There is one such threshold. |
| Calibrate.BeyondSixtyFour | internal/diff/calibrate.go:34-42 | Searching beyond 64 never changes the answer. |

## Left out

- The SHA-256 of the incident identity is taken to be injective: the fingerprint is the encoded identity itself.
- Saturation of time subtraction, and times outside the range of a 64-bit nanosecond count.
- Notification payloads beyond what decides delivery (`payloadSummary`, deep links, segments), and the dispatcher's routing, which is a parameter.
- Calibrate.CalibrationAccuracy: accuracies are exact rationals, not floating-point numbers; the search compares the same counts.
- Calibrate.HammingIsMetric: a 64-bit word is the sequence of its bits, and OnesCount64 a count over them.
- SiteBudgets.ReconcileThrottles: whole seconds are the integer quotient; the source goes through a floating-point number of seconds.
- YAML text: the model starts from the node tree the parser builds and ends with the tree the marshaller is given. Style flags and the position of comments within a node are not modelled; aliases and anchors are assumed absent.
- Reading keys of interest out of the tree stands for koanf's decoding; whether a file loads is a parameter otherwise, as are URL validation and duration parsing.
- `SetSiteVerificationYAML` and `SetSiteMaxPagesYAML`: the same per-site walk as the Search Console writer, with easier promises.
- Reconcile.ReconcileSites: the homepage row, sitemap seeding, segments and health scores are calls that may fail but do not touch the sites table; names, maximum intervals and speed columns, written on insert only, are not in the row.
- DispatchOrder.Linearizable: the log is in the order of the throttle's decisions, and of closed incidents nothing is compared; calls of different incidents may carry their decisions out in another order.
- HookAgreement.AgreementWhenFree: no write, load or store call fails inside the interleaved hooks; what failures do to hooks one after another is in `Hooks`.
- Discovery settings other than the page cap, `ClassForIndex`, and the page generators.
- The verifier behind the re-verification loop, its HTTP and DNS checks, and the reconcile that follows a demoting pass.
- HTTP control server, command line, wizard, metrics, timers' scheduling, daemon start and shutdown.
