# Dynamic-DNS updater: the reconciliation cycle in Dafny

The updater keeps a fixed, ordered list of DNS record names pointing at the
host's public IP address. Every cycle it resolves the IP, lists all records of
the configured Cloudflare zone once, and then, name by name in configuration
order, looks for the first listed record carrying that name:

- none carries it: it creates a proxied A record with that name and the IP;
- the first one already points at the IP: it writes nothing;
- the first one points elsewhere: it sends that record back under its own ID
  with only the content replaced by the IP.

A failed write is printed and the loop goes on with the next name; a failure
to resolve the IP or to list the zone ends the cycle before any write.
Before the first cycle, `main` exits 1 on a bad configuration or client,
exits 0 when asked only to check the configuration or when it finds the
placeholder configuration, and otherwise starts the cycles.

The model has four modules:

- `Dns` (`records.dfy`): the record as listed, and `FirstMatchByName`, the
  lookup on the name alone.
- `Reconcile` (`reconcile.dfy`): the writes and printed lines of a cycle, the
  specification functions `Decide` (one name) and `Plan` (all names), the
  nested loops as the method `ReconcileRecords` (a `recordExists` flag, an
  early `break`, the record copied and its content replaced before the
  update) proved equal to `Plan`, and the cycle `UpdateCycle`.
- `Convergence` (`idempotence.dfy`): what the provider does with the writes
  (`ApplyWrite`: an update replaces the record with that ID, a create appends
  the record) and the theorem that the next cycle with the same IP writes
  nothing.
- `Startup` (`startup.dfy`): the startup decision as a pure function.

The IP lookup, the configuration read and the provider calls are parameters:
`UpdateCycle` receives what the IP lookup and the listing return (a value or an
error message), and a map from the position of a write within the cycle to the
error that call returns. That map changes only the printed lines, never which
writes are attempted.

A few consequences of how the program is written:

- The zone is listed once with an empty filter (main.go:95) and records are
  matched on name only (main.go:104). So a same-named record of any type is
  updated, and never shadowed by a new A record.
- The IP is accepted when it parses as any IP address (main.go:35). No
  IPv4-only test is made. The model takes the resolved IP as an opaque string.
- The `check` argument exits 0 right after the client is built
  (main.go:77-79). No provider query is made.
- Names are not deduplicated and the snapshot is fetched once per cycle
  (main.go:95, 101). So a name listed twice gets the same decision twice,
  and a missing name listed twice is created twice.

## Model

| member | source | states |
|---|---|---|
| `Dns.FirstMatchByName` | main.go:103-116 | the result is the position of a record carrying the name with no earlier record carrying it, and there is no result exactly when no record carries the name; the type is not compared |
| `Reconcile.Decide` | main.go:101-130 | at most one write per configured name, always in the configured zone, for a record with that name and the current IP as content |
| `Reconcile.Plan` | main.go:101-131 | a cycle issues no more writes than there are configured names |
| `Reconcile.PlanTargetsConfiguredNames` | main.go:101-131 | every write of a cycle targets the configured zone, carries one of the configured names and the current IP |
| `Reconcile.DecideMissing` | main.go:119-124 | a name no record carries gets exactly one Create of a record with no ID, type "A", that name, the IP as content and proxied set, and no Update |
| `Reconcile.DecideUnchanged` | main.go:105 | when the first record with the name already has the IP as content, nothing is written for it |
| `Reconcile.DecideUpdate` | main.go:105-107 | when the first record with the name has other content, exactly one Update under that record's ID, of that record with its type, name, ID and proxied flag kept and only the content set to the IP |
| `Reconcile.DecideIgnoresType` | main.go:95-104 | a same-named record of any type prevents a Create: every write for that name is an Update |
| `Reconcile.LaterRecordsIgnored` | main.go:103-116 | records after the first match, later records of the same name included, do not change the decision |
| `Reconcile.PlanSplit` | main.go:101-131 | the plan for a concatenation of name lists is the concatenation of their plans: writes come in configuration order, each name's own decision in its own place |
| `Reconcile.DuplicateNameDecidedTwice` | main.go:95-131 | any name listed twice gets the same decision twice, since the snapshot is fetched once and not changed by the writes |
| `Reconcile.DuplicateMissingNameCreatedTwice` | main.go:95-124 | a name listed twice and carried by no record gets two identical Creates, since the snapshot is fetched once |
| `Reconcile.ReconcileRecords` | main.go:101-131 | the nested loops issue exactly the writes of `Plan` over the unchanged snapshot, whatever calls fail, and print for each write either its error or its confirmation ("Set" for an update, "Created" for a create) |
| `Reconcile.UpdateCycle` | main.go:88-132 | an IP lookup failure prints its error and ends the cycle before the listing call; a listing failure prints its error and ends it with no write; otherwise the writes are the plan over the listing with the resolved IP |
| `Convergence.SettledNoWrite` | main.go:103-116 | no write is issued for a name exactly when its first record already points at the IP |
| `Convergence.ApplyDecisionTracks` | main.go:103-130 | once the provider has applied the decision for a name, that name's first record points at the IP, and the listing keeps every snapshot record's ID and name |
| `Convergence.ApplyDecisionKeepsSettled` | main.go:103-130 | applying the decision for one name leaves every name that already pointed at the IP still pointing at it |
| `Convergence.ApplyPlanSettles` | main.go:101-131 | once the provider has applied all the writes of a cycle, every configured name's first record points at the IP |
| `Convergence.SecondCycleWritesNothing` | main.go:95-131 | idempotence: when the listing has non-empty, distinct IDs and the provider applies a cycle's writes, the next cycle with the same IP and names issues no write |
| `Startup.StartupDecision` | main.go:65-86 | a configuration error exits 1 printing its message, and so does a client error; with a good configuration and client, the check argument exits 0 printing nothing, which shows it is tested before the placeholder email; the placeholder email exits 0 printing "Found dummy config. Exiting."; the cycles run exactly when the configuration and client are good, no check is asked for and the email is not the placeholder |

## Left out

- Resolving the IP (an HTTP GET to an IP-echo service, reading the body, trimming it and parsing it as an IP): network I/O and a library parser. The model receives the result: the IP as a string, or an error message.
- Reading the configuration from standard input and decoding it as TOML, including the rejection of undecoded keys: I/O and a foreign library. The startup decision receives the email or the error message; a cycle receives the zone and the names.
- The provider client (constructing it, listing, updating and creating records): a foreign SDK making network calls. Its calls are the emitted writes, and their failures come from the failure map. The provider's effect on the zone (`ApplyWrite`) is an assumption. It serves to state idempotence and is not part of the updater.
- Convergence.SecondCycleWritesNothing: it assumes the next listing is the old one with the writes applied in place, and created records appended at the end. The provider promises no listing order, so the theorem holds only for a provider that keeps this order.
- Record fields other than ID, type, name, content and proxied. They are copied unchanged by the update, like the content-free fields the model keeps.
- The endless loop with its 125-second sleep, printing, and the process exit: timing and process plumbing. A cycle is modelled once, and its printed lines and exit status are values.
