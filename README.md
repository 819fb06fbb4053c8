# proc-mem-to-prom, modelled in Dafny

proc-mem-to-prom is a Prometheus exporter. Every 15 seconds it reads the
process table, sums per process owner the number of processes, the
resident memory (`VmRSS`) and the swap usage (`VmSwap`), and publishes the
totals as three gauges labelled `(job, hostgroup, instance, username)`:
`node_user_processes`, `node_user_processes_rss` and
`node_user_processes_swap`. Owners that no longer run any process have
their gauges removed.

This project models one sampling cycle (`procs` in `src/main.rs`) and the
start-up configuration:

- `wrappers.dfy`: `Option` and `Result`.
- `snapshot.dfy` (module `Snapshot`): `get_all_procs`. The process listing
  is an input. Entries whose listing or status read failed are dropped.
  A failure to enumerate at all is passed on.
- `aggregation.dfy` (module `Aggregation`): `ProcEntry` and the loop that
  builds the per-owner map. The uid resolver (`UsersCache`) is an
  uninterpreted total function `nat -> Option<string>`. An unresolved uid
  goes to the `"unknown"` bucket. An absent kB reading counts as 0. kB
  values are multiplied by 1000, as the source does.
- `metrics.dfy` (module `Metrics`): the registry as a class with three maps
  from user name to value, one per gauge, with `Set`, `Remove` and
  `Labels`. The `job`, `hostgroup` and `instance` labels are the same for
  the whole process, so a label set is identified by its user name.
- `reconciler.dfy` (module `Reconciler`): the reconciliation. It reads the
  previous user names from the process-count gauge, sets all three gauges
  for each current owner, then removes all three gauges for the leftover
  names. It also models the whole cycle (`Procs`) and a run of cycles
  (`RunCycles`). Each method is proved against a specification function
  (`Reconciled`, `Cycle`, `Run`), and the lemmas state what those
  functions guarantee.
- `config.dfy` (module `Config`): port, group and instance resolution. For
  each one the flag wins, then `PORT`/`GROUP`/`INSTANCE`, then the default
  (0, `"test"`, `"test"`). A `PORT` that does not parse as a `u16` gives 0.
  Rust's `u16` parsing is modelled: one optional leading `+`, then at least
  one decimal digit, with a value below 65536.
- `schedule.dfy` (module `Schedule`): the pause after each cycle. The
  source's pause panics on overrun; see Findings.

The iteration order over Rust's `HashMap` and `HashSet` is unspecified. The
loops pick an arbitrary remaining key with `:|`, so every order is covered.

The source reads the previous user names from the process-count gauge
only (`src/main.rs:103-114`), never from the memory or swap gauge. The
model is faithful to that. So the exactness lemmas need the three gauges
to share one label set (`Consistent`) before the cycle. The registry's
constructor establishes this and every cycle keeps it. `ReconcileAsWritten`
shows what happens without it: a memory or swap label missing from the
process gauge would survive eviction.

## Model

| member | source | states |
|---|---|---|
| `Snapshot.GetAllProcs` | src/main.rs:57-67 | An enumeration failure is returned with the same error. Otherwise the result is a snapshot no longer than the listing. |
| `Snapshot.ReadableLength` | src/main.rs:59-66 | The snapshot has exactly one status per entry whose listing and status read both succeeded. |
| `Snapshot.ReadableMembers` | src/main.rs:59-66 | A status value is in the snapshot if and only if some listed entry yields it. |
| `Snapshot.ReadableAppend` | src/main.rs:59-66 | The snapshot of two listings joined is the two snapshots joined: the filter works entry by entry and keeps listing order. |
| `Snapshot.ReadableOne` | src/main.rs:60-65 | One entry contributes exactly its status when its listing and status read succeed, and nothing otherwise. With `ReadableAppend`, every readable record is kept, duplicates included. |
| `Snapshot.AllReadable` | src/main.rs:59-66 | When every entry is readable, the snapshot is the listing's statuses in listing order. |
| `Aggregation.AggregateProcs` | src/main.rs:83-101 | The loop's map has as keys exactly the distinct resolved owner names. Each entry holds that owner's process count and 1000 times the sums of its VmRSS and VmSwap readings. |
| `Aggregation.AggregateCorrect` | src/main.rs:85-101 | The same key-set and per-owner value statement, for the specification of the loop. Absent readings add 0 and never skip a record. |
| `Aggregation.CountConserved` | src/main.rs:85-92 | The counts of all owners add up to the number of records: each record lands in exactly one bucket. |
| `Aggregation.UnknownBucket` | src/main.rs:86-91 | If any uid fails to resolve, there is one `"unknown"` entry counting at least all such records. It counts exactly those records when no user is really named `"unknown"`. |
| `Metrics.Registry.constructor` | src/main.rs:20-39 | The registry starts with no label set on any gauge, so its three label sets agree. |
| `Metrics.Registry.Set` | src/main.rs:118-126 | Setting a gauge creates or overwrites that user's value and changes nothing else. |
| `Metrics.Registry.Remove` | src/main.rs:130-145 | Removing deletes that user's value from one gauge. It reports whether the value was present. Removing an absent label set changes nothing. |
| `Reconciler.PublishCurrent` | src/main.rs:116-128 | Every current owner's three values are written over the previous state. The returned name set is the previous names minus the current owners. |
| `Reconciler.SetOwner` | src/main.rs:118-126 | One owner's count, rss and swap are written on the three gauges, overwriting any prior values, and nothing else changes. |
| `Reconciler.EvictStale` | src/main.rs:130-146 | All three gauges lose exactly the given names, whether or not each removal found its label set. |
| `Reconciler.Reconcile` | src/main.rs:103-146 | The registry ends in the state `Reconciled` gives: publish every current owner, then evict the previous names of the count gauge that are not current. |
| `Reconciler.Procs` | src/main.rs:75-147 | One cycle leaves the state `Cycle` gives. If enumeration fails, the registry is unchanged. |
| `Reconciler.RunCycles` | src/main.rs:175-182 | Repeated cycles on one registry leave the state `Run` gives. |
| `Reconciler.ReconcileAsWritten` | src/main.rs:103-146 | From any state, the count gauge ends equal to the aggregate. The memory and swap gauges end as the aggregate plus only those old labels the count gauge did not have. |
| `Reconciler.ReconcileExact` | src/main.rs:103-146 | If the three gauges share a label set, each gauge's owner set and values afterwards are exactly the aggregate's, and the label sets still agree. |
| `Reconciler.StaleEvicted` | src/main.rs:130-146 | A previously published owner missing from the aggregate has all three gauges removed. |
| `Reconciler.PresentOverwritten` | src/main.rs:116-128 | Every current owner holds its count, rss and swap on the three gauges, whatever they held before. |
| `Reconciler.ReconcileIdempotent` | src/main.rs:116-146 | Reconciling twice with the same aggregate leaves the same state as reconciling once. |
| `Reconciler.CycleFailureKeeps` | src/main.rs:76-80 | A cycle whose enumeration fails returns before touching the registry. |
| `Reconciler.CycleExact` | src/main.rs:75-146 | After a successful cycle on a consistent registry, every gauge's label set is exactly the readable processes' owner set. The counts and the ×1000 memory and swap sums are exact. |
| `Reconciler.RunConsistent` | src/main.rs:177-181 | Any run of cycles keeps the three label sets equal. |
| `Reconciler.RunFromEmptyExact` | src/main.rs:177-181 | From the empty registry, after any run whose last cycle read the process table, every gauge holds exactly that cycle's owners. Earlier owners are gone. |
| `Config.PortPrecedence` | src/main.rs:189-199 | The port is the flag if given. Otherwise it is `PORT` if that is set and parses as a u16, and otherwise 0. |
| `Config.LabelPrecedence` | src/main.rs:201-217 | Group and instance are each the flag if given, else `GROUP`/`INSTANCE` if set, else `"test"`. |
| `Config.ParseDecimal` | src/main.rs:193-196 | Every port's decimal rendering parses back to that port, with or without a leading `+`. |
| `Config.ParseAccepted` | src/main.rs:193-196 | Every accepted `PORT` is the decimal rendering of the parsed port, possibly after leading zeros and one leading `+`. With `ParseDecimal`, this is a round trip in both directions. |
| `Config.ParseRejectsLarge` | src/main.rs:193-196 | Values of 65536 and more are rejected, with or without leading zeros or a `+`. A `PORT` holding one gives the port 0. |
| `Config.ParseRejectsMalformed` | src/main.rs:193-197 | The empty string, a lone `+` and any string starting with `-` are rejected. A `PORT` holding one gives the port 0. |
| `Schedule.SleepAsWrittenPanics` | src/main.rs:180 | The written pause panics exactly when a cycle took longer than 15 s. |
| `Schedule.Sleep` | src/main.rs:175-182 | The intended pause never exceeds the period. It fills the rest of the period, or is 0 when the cycle overran. |
| `Schedule.SleepAgrees` | src/main.rs:180 | Where the written pause does not panic, it equals the intended one. |

## Left out

- Logging: the `println!("Cannot get processes!")` on an enumeration failure is console output. The model keeps only its effect, that the cycle returns without touching the registry.
- HTTP serving (`serve_req`, `Server::bind`, `tokio::spawn`), the text exposition encoding and the one-shot printing: network I/O, concurrency and a library's encoder.
- Process enumeration and status reads (`all_processes`, `status`): OS I/O. The listing is an input value.
- Uid resolution (`UsersCache::get_user_by_uid`): a foreign call, modelled as an uninterpreted total function. The `to_str().unwrap()` on the name is taken to succeed.
- The `lazy_static` global gauges and `IntGaugeVec` internals: replaced by the explicit `Registry` class. The `(job, hostgroup, instance)` prefix is constant for the process lifetime and is not stored.
- Collecting label sets metric by metric (`src/main.rs:105-113`): `Registry.Labels` returns the user names directly. The `None` branch for a metric without labels cannot occur, since every metric carries four labels.
- Argument parsing (clap): the parsed `Args` and the environment (a map from name to value) are inputs. A variable that is not valid Unicode is treated like an unset one.
- `run_forever`'s sleeping and clock: wall-clock and async. `RunCycles` models the loop body over a finite sequence of cycles. `Schedule` models only the pause arithmetic.
- Integer width: counts and sums are unbounded. The `as i64` casts and the overflow of `x as i64 * 1000` are not modelled.
- Scale: the ×1000 factor from the source is kept. It is not converted to ×1024.

## Findings

The pause after a cycle is meant to be what remains of the 15-second period, and nothing when a cycle overran it. The code computes it as a `Duration` subtraction, which panics instead.

| source | as written | input that shows it | evidently intended | confidence | as-written member | corrected member |
|---|---|---|---|---|---|---|
| src/main.rs:180 | `Duration::from_secs(15) - start.elapsed()` panics when a cycle takes longer than 15 s, which ends the sampling loop | a cycle whose elapsed time is 15 s + 1 ns | pause `max(0, 15 s - elapsed)`: start the next cycle at once | not executed | `Schedule.SleepAsWrittenPanics` | `Schedule.Sleep` |
