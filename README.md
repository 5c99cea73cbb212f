# dnsscale in Dafny

dnsscale publishes DNS records for the machines of a Tailscale tailnet. It polls the
tailnet's device list and keeps a cache of nodes. For every new or changed node it queues
the node's id, and for every node that has gone it queues `<id>:delete`. Workers take
keys off the queue and reconcile them against a DNS provider:

- A node key publishes one A or AAAA record per address, with TTL 300, under
  `<name>.<domain>`. It then publishes a TXT ownership marker
  `"dnsscale-managed node_id=<id>"`.
- A deletion key lists the zone, finds the node's marker, and deletes every record with
  the marker's name.

Two providers are modelled: Pi-hole (custom DNS table) and Cloudflare (REST API). The
configuration validator is modelled as well.

The model is organised as follows:

- `common.dfy`
  - `Results`: `Option` and `Result`.
  - `Strings`: `HasPrefix`, `HasSuffix`, `Contains` and `TrimSuffix` as Go's `strings`
    package defines them, on `seq<char>`, and `IndexOf`, the first position of one
    character in a string (the only way the modelled code uses `strings.Index`).
  - `Records`: the provider-neutral `DNSRecord` and the `DNSProvider` interface.
    `DNSProvider` is a record of four transition functions (list, create, update,
    delete) over the provider's remote state.
- `nodes.dfy` (`Nodes`): Tailscale devices and nodes, the short-name derivation of
  `ToTailscaleNode`, `nodesEqual` and `shouldManageNode`.
- `pihole.dfy` (`Pihole`) and `cloudflare.dfy` (`Cloudflare`): the two providers.
  - The Go provider structs never change after construction. What their calls change is
    the remote store. So each store is a `Server` value holding the remote table or
    zone, the replies the server is going to give, and the requests it has received.
  - Every operation is a function from one `Server` to the next, plus the error it
    returns.
  - Where the Go code loops, a method with that loop is proved equal to the function.
- `backend.dfy` (`Backends`): the two providers as instances of `DNSProvider`. It also
  states what the reconciler can rely on from Pi-hole.
- `reconciler.dfy` (`Reconciler`):
  - work-queue keys;
  - the records published for a node;
  - the upsert path and the deletion sweep, as functions over any `DNSProvider`;
  - the cache diff of `syncNodes`;
  - the `DNSReconciler` class. Its fields are the node cache, the queue (as the
    sequence of operations made on it), the tag filter, and the provider with its
    state. Its methods carry the loops of `syncNodes`, `reconcile`, `deleteNodeDNS` and
    the worker.
- `config.dfy` (`Configuration`): the configuration, `Config.Validate` as a class
  method with its lookup loops, and the function `Validation` that specifies it.

## Model

| member | source | states |
|---|---|---|
| Nodes.ShortName | main.go:67-77 | The short name is a prefix of the device name, or of the hostname when the name is empty. It holds no dot and stops right before the first dot. A name that starts with a dot is kept whole. |
| Nodes.ToTailscaleNode | main.go:63-88 | The id, hostname, addresses, tags and last-seen time are carried over and the online flag is the one given. The name is a prefix of the device name, or of the hostname when the name is empty. It stops right before the first dot and holds none, unless that name starts with a dot, in which case it is kept whole (the name is `ShortName` of the device name and hostname). |
| Nodes.TailnetSuffixDropped | main.go:63-88 | A name `host.suffix` with a non-empty, dot-free `host` becomes `host`. The id, hostname, addresses and tags are carried over, and the online flag is the one given. |
| Nodes.NodesEqual | main.go:440-453 | True exactly when the name, the online flag and the address lists (element by element, in order) are equal. Id, hostname, tags and last-seen time are ignored. |
| Nodes.ShouldManageNode | main.go:426-437 | With no required tags every node is managed. Otherwise a node is managed exactly when one of its tags is a required tag. |
| Nodes.ProdFilterSkipsDevNode | main.go:426-437 | With the filter {"tag:prod"}, a node tagged only "tag:dev" is skipped. |
| Records.FirstNamed | providers/pihole.go:169-177 | The index of the first record with the given name and type; no earlier record matches; `|records|` when none does. |
| Pihole.NewProvider | providers/pihole.go:32-60 | The base URL is checked first, then the token, and each gets its own error. Success exactly when both are present. One trailing slash is dropped from the URL. The token and the TLS flag are kept. |
| Pihole.Listing | providers/pihole.go:107-150 | Listing sends one list request and never changes the table. It fails exactly when the transport, the status or the decoding fails. Every listed record is A or AAAA with TTL 300. |
| Pihole.ListRecords | providers/pihole.go:107-150 | The conversion loop yields exactly `Listing`. |
| Pihole.ConvertedRecords | providers/pihole.go:125-147 | A record is listed exactly when some entry has at least two fields, its domain ends with the zone, and the record is that entry typed by its IP. |
| Pihole.ConvertedAddressesOnly | providers/pihole.go:131-144 | Every listed record is A or AAAA as its IP dictates (AAAA iff the IP has a colon), has TTL 300, and lies in the zone. |
| Pihole.ConvertedAppend | providers/pihole.go:126-147 | The conversion keeps entry order: it distributes over concatenation. |
| Pihole.DeleteRecord | providers/pihole.go:208-244 | A non-A/AAAA record succeeds with no request and no change. Otherwise one delete request is sent. It succeeds exactly on a delivered reply or a "not found" refusal. A non-200 status is reported. The rows go only when the server carried the delete out. |
| Pihole.UpdateRecord | providers/pihole.go:157-206 | The loop-based method equals `Upsert`. Any type but A/AAAA is refused before any request. |
| Pihole.CreateRecord | providers/pihole.go:152-155 | CreateRecord is exactly UpdateRecord. |
| Pihole.UpsertRemovesAtMostFirstMatch | providers/pihole.go:163-186 | The requests sent are the listing, at most one delete, and at most one add, in that order. The one delete is of the first listed record with the same name and type. |
| Pihole.UpsertDeletesFirstMatchFirst | providers/pihole.go:163-186 | Once the listing is delivered, the next request is the delete of the first listed record with the same name and type. Without such a record, the next and last request is the add. |
| Pihole.UpsertReplacesFirstMatch | providers/pihole.go:157-206 | When the server carries out every request, the update succeeds. The new table is the old one without the first match's rows, then the new row. |
| Pihole.FailedRemovalKeepsTable | providers/pihole.go:169-176 | A failed delete of the existing entry leaves the table unchanged and stops after the delete request, with no add. |
| Pihole.UpsertReadsBack | providers/pihole.go:179-205 | After a successful update of a record in the zone, listing the table shows it. |
| Pihole.UpsertRefusesTXT | providers/pihole.go:158-161 | A TXT record is refused with no request and no change. |
| Backends.PiholeHidesTXT | providers/pihole.go:107-161 | Through the provider interface, a Pi-hole listing never yields TXT and keeps the table. An update of any type but A/AAAA is refused with the state unchanged. |
| Cloudflare.NewProvider | providers/cloudflare.go:65-76 | Success exactly when both the token and the zone id are present; otherwise the one credentials error. It keeps both, and its base URL is the Cloudflare v4 API base URL. |
| Cloudflare.CheckReply | providers/cloudflare.go:107-125 | A reply passes exactly when it decoded with success=true. A failure carries the first error's message and code, or a generic error when the list is empty. Transport and decoding failures are distinguished. |
| Cloudflare.ListableRecords | providers/cloudflare.go:141-153 | A record is listed exactly when a stored A, AAAA or TXT record has its name, type, content and TTL. |
| Cloudflare.ListableAppend | providers/cloudflare.go:143-153 | The listing filter keeps the zone's order. |
| Cloudflare.Listing | providers/cloudflare.go:128-156 | Listing sends one request for the configured zone and changes no record. It fails exactly when the reply does not pass. |
| Cloudflare.ListRecords | providers/cloudflare.go:128-156 | The filter loop yields exactly `Listing`. |
| Cloudflare.CreateRecord | providers/cloudflare.go:158-174 | One POST, to the configured zone, with proxied=false. On success the zone gains exactly that record under a fresh id. On failure the records are unchanged. |
| Cloudflare.UpdateRecord | providers/cloudflare.go:176-229 | The search loop with its early exit equals `Upsert`, which lists, looks the record up, then overwrites or creates. |
| Cloudflare.LookupOutcome | providers/cloudflare.go:183-206 | The search only queries, and only the configured zone. A found id is that of the zone's first record with the name and type. Nothing is found only when no listed record matches or the zone has no such record. |
| Cloudflare.ListedMatch | providers/cloudflare.go:141-153 | A listed record with a given name and type exists exactly when the zone stores an A, AAAA or TXT record with them. |
| Cloudflare.UpsertFailureKeepsRecords | providers/cloudflare.go:176-229 | A failed UpdateRecord leaves the zone's records and id counter unchanged. |
| Cloudflare.UpsertCreatesWhenAbsent | providers/cloudflare.go:208-211 | A successful update with no stored A/AAAA/TXT match appends the record, unproxied, under a fresh id. |
| Cloudflare.UpsertReplacesFirstMatch | providers/cloudflare.go:200-228 | A successful update with a stored match overwrites the first match in place. The id is kept and proxied is false. |
| Cloudflare.UpsertConforms | providers/cloudflare.go:159-170 | Every request UpdateRecord sends names the configured zone, whatever the `zone` argument is. Nothing it writes is proxied. The earlier request log is kept. |
| Cloudflare.DeleteRecord | providers/cloudflare.go:231-253 | The first request is the query by name and type. A failure changes no record. The id counter never changes. |
| Cloudflare.DeleteRemovesFirstMatch | providers/cloudflare.go:231-253 | Without a stored match only the query is sent, nothing changes, and the result is the query's verdict, so a successful query makes the call succeed. On success the first match, whatever its content, is removed and nothing else is. |
| Cloudflare.ExchangeKeepsValid | providers/cloudflare.go:21-34 | Any one request keeps record ids distinct and below the next fresh id. |
| Cloudflare.OperationsKeepValid | providers/cloudflare.go:176-253 | UpdateRecord and DeleteRecord keep record ids distinct and below the next fresh id. |
| Reconciler.ParseKey | main.go:313-317 | A key is a deletion key exactly when it ends with ":delete". The id is then the key without the suffix, and otherwise the key itself. |
| Reconciler.DeleteKeyRoundTrip | main.go:283 | Every deletion key syncNodes queues is routed back to the deletion of the same node. |
| Reconciler.DeleteKeys | main.go:280-286 | Each queued deletion key parses back to its node id. |
| Reconciler.Adds | main.go:265-286 | One queue Add per key, in order. |
| Reconciler.Settle | main.go:290-310 | A failed reconcile is re-queued rate-limited, a successful one is forgotten, and the item is always marked done. |
| Reconciler.AddressRecords | main.go:336-351 | One record per address, in order, named `<name>.<domain>`, with TTL 300 and the address as value. The type is AAAA exactly when the address contains a colon, A otherwise. |
| Reconciler.WebServerExample | main.go:336-351 | Node "web-server" with address 100.64.0.1 in example.com yields one A record "web-server.example.com", TTL 300. |
| Reconciler.OwnershipValueInjective | main.go:364-369 | Distinct node ids give distinct ownership markers. |
| Reconciler.PublishStopsAtFirstFailure | main.go:339-360 | The address loop updates the records in order, one call each. It stops at the first failure, which is an update failure. With no failure it updates them all. |
| Reconciler.PublishFailureSticks | main.go:355-357 | Once an address update has failed, the remaining addresses are not touched. |
| Reconciler.FirstOwned | main.go:394-396 | Under either ownership test (the substring test as written, or the exact marker), the index of the first listed record the test accepts for the node; no earlier record is accepted. |
| Reconciler.NamedAsExactly | main.go:404-406 | The sweep's targets are exactly the listed records with the marker's name. |
| Reconciler.DeleteNamed | main.go:402-416 | The inner loop of deleteNodeDNS is proved equal to `DeleteAll` over the listed records with the name: one delete per such record, in listing order, failures ignored. |
| Reconciler.DeleteAllCalls | main.go:404-420 | The sweep makes exactly one delete call per target, in listing order, and ignores failures. |
| Reconciler.SweepTouchesOnlyOwnedName | main.go:386-423 | Under either ownership test, deleteNodeDNS lists once and fails exactly when the listing fails. Without a marker it deletes nothing. With one, it deletes each listed record that has the marker's name and deletes nothing else. |
| Reconciler.PiholeSweepIsNoop | main.go:386-423 | On Pi-hole no TXT record is ever listed, so under either ownership test a deletion makes only the list call and leaves the table as it was. |
| Reconciler.OwnedByIsExact | main.go:394-396 | The corrected ownership test accepts a node's marker for that node and for no other. |
| Reconciler.AsWrittenMatchesOtherNode | main.go:396 | The substring test as written takes node "123"'s marker for node "12". |
| Reconciler.AsWrittenSweepHitsOtherNode | main.go:386-423 | When the listing holds node "123"'s marker and then its address records, the sweep as written for node "12" deletes every one of node 123's address records. The sweep with the exact test deletes nothing. |
| Reconciler.AsWrittenMatchesOwnMarker | main.go:396 | The substring test as written accepts every node's own marker. |
| Reconciler.UpsertPublishes | main.go:336-382 | With no failure, the address records are updated in order, then the marker, whatever its update returns. With a failure, the calls stop at the failing address and no marker is written. |
| Reconciler.UnpublishableKeyMakesNoCalls | main.go:319-334 | A key missing from the cache is an error, and a filtered-out node succeeds. Neither makes any provider call. |
| Reconciler.PiholeMarkerIsInert | main.go:362-382 | On Pi-hole the marker's refusal changes nothing, and reconcile still succeeds exactly when the address updates did. |
| Reconciler.DeletionSettles | main.go:290-310 | A deletion key is re-queued exactly when listing the records fails. |
| Reconciler.AbsorbUntouched | main.go:265-277 | An id that is not listed is neither queued nor changed by the first loop of syncNodes. |
| Reconciler.AbsorbOutcome | main.go:265-277 | With distinct listed ids, a listed id is queued exactly when it was not cached or is not nodesEqual to its cached node. The cache then holds the listed node if the id was queued and keeps the old node otherwise. |
| Reconciler.AbsorbKeys | main.go:265-277 | After the first loop, the cache's ids are the old ids plus the listed ids. |
| Reconciler.SyncedCache | main.go:250-287 | After syncNodes with distinct listed ids, the cache holds exactly the listed ids. Each maps to a node nodesEqual to the listed one, which is the listed node itself when it was queued. |
| Reconciler.TagChangeIsInvisible | main.go:440-453 | A change that only touches the tags queues nothing, and the cache keeps the old node. |
| Reconciler.DropUnlisted | main.go:279-286 | The second loop keeps exactly the listed ids, with their nodes unchanged. It removes each unlisted id once and queues its deletion key, in the order it visits them. |
| Reconciler.DNSReconciler.constructor | main.go:189-201 | A new reconciler has an empty cache, an empty queue and no tag filter. |
| Reconciler.DNSReconciler.RequireTag | main.go:537-538 | Adds a tag to the filter and changes nothing else. |
| Reconciler.DNSReconciler.SyncNodes | main.go:250-287 | A failed listing changes nothing. Otherwise the cache becomes `Synced` of the listing. The queue gains the upsert keys of the changed nodes, then the deletion keys of exactly the cached ids that were not listed, each once. |
| Reconciler.AbsorbListed | main.go:264-277 | The first loop leaves the cache and queue of `Absorb` and returns exactly the listed ids. |
| Reconciler.DNSReconciler.Reconcile | main.go:313-383 | The provider state, the calls and the error are exactly those of `Reconciliation`. Cache, filter and queue are unchanged. |
| Reconciler.DNSReconciler.DeleteNodeDNS | main.go:386-423 | The provider state, the calls and the error are exactly those of `Sweep` with the exact ownership test. |
| Reconciler.DNSReconciler.ProcessItem | main.go:290-310 | One worker turn: the provider state and error are those of `Reconciliation`, and the queue gains `Settle` of the outcome. |
| Configuration.ValidationSucceedsIff | config.go:73-157 | Validate succeeds exactly when: the four required fields are present; the provider's own fields are present; the level is empty or known; and the format is empty or known. |
| Configuration.MissingFieldsFirst | config.go:75-88 | The first missing field is reported, checked in the order api_key, tailnet, provider, domain, before any change. A "required" error arises exactly when one of them is missing. |
| Configuration.ProviderRequirements | config.go:91-113 | route53 needs a zone id. cloudflare needs a zone id and then a token. pihole needs a base URL and then a token, and its verdict does not depend on the zone id. Any other provider is unsupported. |
| Configuration.AppDefaults | config.go:116-121 | Past the provider check, workers <= 0 becomes 2 and poll interval <= 0 becomes 30 s, and positive values are kept. Tailscale, DNS and tag settings never change. |
| Configuration.LoggingRules | config.go:123-154 | An empty level becomes "info", and a known level is kept. Any other level is reported. The same goes for format, with "console" and json/console. |
| Configuration.ValidationIdempotent | config.go:116-156 | On success workers and poll interval are positive and level and format are known. Validating again succeeds and changes nothing. |
| Configuration.Config.Validate | config.go:73-157 | The method with its lookup loops leaves exactly the settings of `Validation` and returns its error. That includes defaults written before a later logging error. |

## Left out

- Tailscale API access (`ListNodes`, `NewTailscaleClient`) is HTTP and JSON. `syncNodes` takes the listing result as a parameter.
- The clock is left out. `ToTailscaleNode` takes the online flag (seen within five minutes) as a parameter, and last-seen times are plain integers.
- The work queue library is not modelled. Its rate limiting, de-duplication, `Get` and shutdown are library code, so the queue is the log of `Add`, `AddRateLimited`, `Forget` and `Done` calls. `Run`, `watchTailscale`, the worker goroutines, the ticker and the cache mutex are concurrency and are left out: each method runs as one atomic step.
- Logging is left out everywhere, and so are `setupLogger`, `createDNSProvider`, `runDNSScale` and `main`. Only the tag-filter set-up of `runDNSScale` is kept, as `RequireTag`. cmd.go (flags, environment, configuration files) is not part of this model.
- Route53 is left out beyond the `DNSRecord` and `DNSProvider` declarations, because it is AWS SDK calls. Its listing also yields only A and AAAA records, so deletion finds no marker there either.
- HTTP details are left out: URLs, query encoding, headers, timeouts, TLS settings and JSON bodies. Error messages are datatype constructors, not strings.
- Pihole.DeleteRecord, Pihole.FailedRemovalKeepsTable, Cloudflare.DeleteRecord, Cloudflare.UpsertFailureKeepsRecords: the model server carries out a request only when its reply reports success, so a failed reply means the request was not applied. A request the server applied whose answer was then lost, timed out (the providers' 30-second HTTP client) or could not be decoded is not modelled, so these promises hold of the model server only.
- Cloudflare listing is a single response. Pagination is not modelled, and neither is the separate decoding of the `result` field: an undecodable reply stands for both.
- Record ids on Cloudflare are numbers handed out by the zone model.
- TTLs are unbounded integers. The `int64`/`int` conversions of the Cloudflare payload do not overflow for TTL 300.
- Reconciler.DNSReconciler.DeleteNodeDNS: uses the exact ownership test, not the substring test of the source (see Findings), and so does `Reconciliation`. The sweep as written is `Sweep` with `SubstringMarker`, and `FirstOwned`, `SweepTouchesOnlyOwnedName` and `PiholeSweepIsNoop` hold for both tests.
- Reconciler.SyncedCache: the cache maps each listed id to a node equivalent to the listed one, and not always to the listed node itself. syncNodes keeps the cached node when nodesEqual holds, so a tag-only change is not picked up.
- Configuration.Validation: a poll interval is an unbounded integer of nanoseconds. The `time.Duration` is 64-bit, but no value in the validator gets near the bound.

## Findings

| source | as written | input that shows it | evidently intended | confidence | as-written member | corrected member |
|---|---|---|---|---|---|---|
| main.go:396 | `deleteNodeDNS` treats a TXT record as the node's marker when its value merely contains `node_id=<id>` | deleting node "12" while node "123" has the marker `"dnsscale-managed node_id=123"`: that marker matches, and every record named after node 123 is deleted | only the node's own marker `"dnsscale-managed node_id=<id>"` matches | not executed | Reconciler.AsWrittenSweepHitsOtherNode | Reconciler.OwnedByIsExact |
