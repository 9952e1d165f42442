# Rancher rebalancer: the rebalance pass, modelled in Dafny

The rebalancer looks at the replicated services of a Rancher project. It
finds hosts that run more replicas of a service than their fair share. It
fixes them by draining: deactivate the host, delete the excess replicas so
that the scheduler places them elsewhere, wait, reactivate the host and
send a chat notification. This project models one pass of
`Rebalance` in `evencattle/rebalance.go` as separate stages:

- **Label filter** (`LabelFilter`). A `key=value` filter keeps, in order,
  the services whose launch-config labels hold that exact pair. The filter
  is cut with Go's `strings.Split` semantics (`Text.Split`), so `a=b=c`
  looks for key `a` with value `b`.
- **Exclusion scan** (`Exclusion`). An inactive service, a service of scale
  1 and a service labelled `io.rancher.scheduler.global=true` are excluded.
  The same scan reads the `io.rancher.scheduler.affinity:host_label` value.
  The labels are a Go map, so the loop picks the next key arbitrarily.
- **Spread** (`Spread`). `HostContainerCount` is a class, as in the source,
  where the spread is a slice of pointers updated in place.
  `ComputeSpread` runs the nested scan-and-increment. Its result is tied to
  a value-level `SpreadOf`. Lemmas prove the spread's properties against
  independent definitions: `IdsOn` (the ids on a host) and `FirstSeen`
  (hosts in first-seen order).
- **Fair share** (`FairShare`). The host count is the number of
  label-matched hosts, or the spread length when that is 0. `perHost` and
  `offset` use Go's truncating `/` and `%` (`Quot`, `Rem`). `Plan` is the
  plan loop, including its `break` at the first tolerated host.
- **Drain** (`Drain`). The deletion loop counts failed deletions toward the
  quota and builds the `id | name` record. `DrainHost` gives the event
  sequence for one host. Dry-run mode emits nothing.
- **Pass** (`Rebalance`). `CheckService` is one iteration of the main loop.
  `RunPass` is the whole function. Each is proved equal to a specification
  function (`ServicePass`, `PassOf`) built from `Chain`: steps run in order
  until the first one that does not complete.

The platform client is replaced by a `Platform` record. It holds the host
count per label, whether a host lookup succeeds, the host's name, a
container's name and whether a delete succeeds. Every mutating call and the
notification become `Event`s in a trace: `Deactivate`, `Delete`, `Sleep`,
`Activate`, `Notify`.

Three behaviours of the code are modelled as written, although the code's
own comments or names suggest a different intent:

- With a host count of 0, `Scale / numHosts` (line 166) is a Go run-time
  panic, so the whole pass ends (`Status.DivideByZero`). The host count is
  computed for every service, excluded ones included. The comment at line
  160 says a service should not get this far unless its scale is above 1,
  so excluded services were evidently not meant to reach the division. The
  evident intent is to skip only that service (see Findings).
- The host listing is asked for the affinity label even when a service has
  none, that is for label `""` (line 161). Its count is used whenever it is
  non-zero. The spread length is used only when it is zero, which the
  comment at line 163 reads as "no affinity label".
- The notification's rescheduled count is `toDeleteCount` (line 260), even
  when some of the deletions failed.

## Model

| member | source | states |
|---|---|---|
| `Text.Split` | evencattle/rebalance.go:73 | splitting gives at least one segment; exactly one iff the separator is absent; no segment holds the separator |
| `Text.JoinSplit` | evencattle/rebalance.go:73 | joining the segments of a split with the separator gives back the original string |
| `Text.SplitJoin` | evencattle/rebalance.go:229-230 | splitting a join of separator-free pieces gives back the pieces |
| `LabelFilter.SelectByLabel` | evencattle/rebalance.go:71-85 | an empty filter returns the collection unchanged; otherwise the result is the collection filtered by the pair `FilterKey`/`FilterValue` of the filter, in order; the inner label loop over the map in any order keeps a service iff it has the pair |
| `LabelFilter.FilterParts` | evencattle/rebalance.go:73-76 | the key is the text before the first `=`; the value is the text after it up to the next `=` or the end |
| `LabelFilter.SelectedMembers` | evencattle/rebalance.go:74-82 | a service is kept iff it is in the collection and its labels map the key to the value |
| `LabelFilter.SelectedAppend` | evencattle/rebalance.go:74-82 | filtering a concatenation is the concatenation of the filtered parts, so the input order is kept |
| `LabelFilter.SelectedMultiplicity` | evencattle/rebalance.go:76-79 | each occurrence of a labelled service is kept exactly once (the `break`), an unlabelled one never |
| `Exclusion.ScanService` | evencattle/rebalance.go:100-121 | excluded iff the state is `inactive`, the scale is 1, or the global label is `true`; the host label is the affinity label's value, or `""` without one, whatever order the map's keys are visited in |
| `Spread.HostContainerCount.constructor` | evencattle/rebalance.go:146-151 | a new entry holds the container's host id and hostname, count 1 and the one container id |
| `Spread.GrowHost` | evencattle/rebalance.go:135-144 | the inner scan grows every entry for the container's host by one count and that container id, changes nothing else, and reports whether such an entry existed |
| `Spread.ComputeSpread` | evencattle/rebalance.go:134-154 | the spread is a list of distinct fresh objects whose values are `SpreadOf(containers)` |
| `Spread.SpreadDescribes` | evencattle/rebalance.go:134-154 | spread hosts are pairwise distinct; each count equals the length of its id list; each id list is exactly the ids of the containers on that host in input order; every container's host has an entry |
| `Spread.SpreadOrder` | evencattle/rebalance.go:134-154 | the entries' hosts are the containers' hosts with repeats removed, in the order each host is first seen |
| `Spread.SpreadHostnames` | evencattle/rebalance.go:146-151 | each entry carries the hostname of the first container seen on its host |
| `Spread.SpreadTotal` | evencattle/rebalance.go:137-153 | the counts sum to the number of containers |
| `FairShare.DivMod` | evencattle/rebalance.go:166-169 | for a positive host count, `scale == perHost * numHosts + offset`; the remainder is below the host count in magnitude and has the scale's sign; for a non-negative scale `0 <= offset < numHosts` and `perHost` is the floor |
| `FairShare.HostCountZero` | evencattle/rebalance.go:161-165 | the host count is the matched count when that is non-zero; it is zero iff no host matched and the spread is empty |
| `FairShare.Plan` | evencattle/rebalance.go:182-188 | every planned drain deletes `Count - perHost` containers, and never exactly 1 when the offset is non-zero |
| `FairShare.PlanDrains` | evencattle/rebalance.go:182-188 | an entry over the share, not tolerated, and with no tolerated entry before it, is drained by its excess |
| `FairShare.PlanOnlyDrains` | evencattle/rebalance.go:182-188 | every drained entry is over the share, not tolerated, and has no tolerated entry before it |
| `FairShare.PlanAppend` | evencattle/rebalance.go:182-183 | entries at or under the share do not stop the scan: before any tolerated entry, the plan of a concatenation is the concatenation of the plans |
| `FairShare.PlanStops` | evencattle/rebalance.go:185-187 | the first tolerated entry ends the scan, so nothing after it is drained |
| `FairShare.ScenarioOddScale` | evencattle/rebalance.go:166-188 | scale 10 over hosts holding 4, 3, 3: share 3, remainder 1, no host drained |
| `FairShare.ScenarioEvenScale` | evencattle/rebalance.go:166-188 | scale 9 over hosts holding 5, 2, 2: share 3, remainder 0, only the first host drained, by 2 |
| `Drain.DeleteContainers` | evencattle/rebalance.go:213-234 | live mode attempts `min(toDelete, len(ids))` deletions on the first ids in order, failed ones included; `deletedContainerInfo` is their `id \| name` lines joined by newlines; dry-run deletes nothing and records nothing |
| `Drain.DrainHost` | evencattle/rebalance.go:191-263 | a failed host lookup yields no event and reports the failure; dry-run yields no event; live mode yields `LiveDrain`: Deactivate, the deletions, Sleep(30), Activate, Notify |
| `Drain.DrainQuota` | evencattle/rebalance.go:213-233 | a live drain deletes exactly the first `min(toDelete, len(ids))` container ids in order, whatever the deletions return |
| `Drain.DeletesWhileDeactivated` | evencattle/rebalance.go:199-263 | every deletion is preceded by the host's deactivation and followed by the 30-second pause, the host's reactivation and the notification |
| `Drain.InfoRoundTrip` | evencattle/rebalance.go:229-230 | the deleted-containers record splits back into its `id \| name` lines when ids and names hold no newline |
| `Rebalance.DrainPlan` | evencattle/rebalance.go:182-265 | the plan loop's trace and status equal running the drains of `Plan` in order, stopping at the first failed host lookup |
| `Rebalance.CheckService` | evencattle/rebalance.go:94-266 | one service's trace and status equal `ServicePass`: a zero host count aborts, otherwise its planned drains run |
| `Rebalance.RunPass` | evencattle/rebalance.go:57-268 | the whole pass's trace and status equal `PassOf`: the services chosen by the label filter, in order, until one does not complete |
| `Rebalance.DryRunSilent` | evencattle/rebalance.go:199-263 | a dry-run pass emits no Deactivate, Delete, Sleep, Activate or Notify event, however it ends |
| `Rebalance.ExcludedUntouched` | evencattle/rebalance.go:123-169 | an excluded service gets no event; it completes unless its host count is zero |
| `Rebalance.PassStopsAt` | evencattle/rebalance.go:191-195 | the first service that does not complete (failed host lookup, division by zero) ends the pass; no later service adds anything |
| `Rebalance.OnlyOwnContainers` | evencattle/rebalance.go:130-233 | every container a service's pass deletes is one of that service's containers |
| `Rebalance.ZeroHostCountEndsPass` | evencattle/rebalance.go:161-169 | an excluded service whose host label matches no host ends the pass with a division by zero before an over-scheduled later service is drained |
| `Rebalance.GuardedSkipsService` | evencattle/rebalance.go:161-169 | with the guard, a service with zero hosts can be removed from the list without changing the pass |
| `Rebalance.GuardedAgrees` | evencattle/rebalance.go:161-169 | the guard changes nothing when the host count is positive, and a guarded pass never ends in a division by zero |

## Left out

- `NotifySlack` (evencattle/rebalance.go:24-55) is an HTTPS POST. The JSON message built at line 260 is not modelled. A notification is a `Notify` event carrying its fields. The process exit when sending fails is not modelled.
- The Rancher client calls are inputs (`Platform`, `Service.containers`, `Service.stackName`) or events. These are the service, container and host listings, the host and container lookups, deactivate, activate and delete. Their implementations are not part of this model.
- `time.Sleep` becomes the event `Sleep(30)`. Logging and `spew.Sdump` are left out. So is the dry-run loop's per-container log, which covers every id with no quota.
- `LabelFilter.SelectByLabel`: a non-empty filter without `=` is a precondition. Go indexes past the end of the split (a panic) only when some service has a label whose key is the whole filter.
- Label values are typed `interface{}` in Go. Here they are strings, so the panic of `v.(string)` on a non-string affinity value is not modelled.
- `Drain.DrainHost`: the second host lookup before activation (line 249) is taken to succeed, with `Platform.hostname` as the host's name. In the source its failure is only logged, and what the client returns then is not part of this model.
- A container lookup before deletion is taken to succeed, with `Platform.containerName` as its name.
- 64-bit overflow of the scale and of the counts is not modelled; integers are unbounded.
- rancher-functions.go is not modelled. It holds client construction, listings and a superseded rebalancing variant (`serviceHosts`) that depends on `roundCount`, which is not part of this model.

## Findings

| source | as written | input that shows it | evidently intended | confidence | as-written member | corrected member |
|---|---|---|---|---|---|---|
| evencattle/rebalance.go:161-169 | the host count is computed for every service, excluded ones included, and `Scale / numHosts` with `numHosts == 0` is a Go run-time panic that ends the whole pass | an inactive service with affinity label `role=none`, matched by no host and with no spread, listed before an over-scheduled service | a zero host count skips only that service; the comment at line 160 expects only services of scale above 1 to get this far | not executed | `Rebalance.ZeroHostCountEndsPass` | `Rebalance.GuardedSkipsService` |

The corrected definition is `Rebalance.GuardedServicePass`. It skips a
service whose host count is zero. `GuardedAgrees` shows it agrees with
`ServicePass` in every other case. `RunPass` and `PassOf` still model the
code as written.
