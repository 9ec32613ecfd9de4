# ip_exporter refresh loop, modelled in Dafny

The exporter publishes a host's public IP address as the gauge family
`node_public_ip` with the single label `address`. A background task wakes on
every tick, asks an IP-echo service for the address and, when that address
differs from the one it tracks, moves the gauge's series: it deletes the
series of the old address, sets the series of the new address to 1 and
records the new address. A failed lookup skips the tick. At start-up the
listen address and the scrape path come from `EXPORTER_PORT` and
`EXPORTER_PATH`, and each falls back to a default when it is empty.

Modules:

- `Gauge` (gauge.dfy): the gauge vector as a class whose `series` field is a
  `map<string, int>`, with the map semantics assumed for the metrics library.
  `Delete` removes exactly the named series and does nothing when it is
  absent. `Set` (the source's `With(...).Set`) creates or overwrites a series.
  `Metrics.Register` builds the empty vector.
- `Refresh` (refresh.dfy): the specification on values first. `State` holds
  the tracked address and the series map. `Next` is one tick and `Run` is a
  sequence of ticks. `Inv` says that either nothing is published and no
  address is tracked, or the map is exactly `{currentIP: 1}`. Lemmas state the
  consistency, idempotence, cold-start, last-success and scenario properties.
  Then the imperative side: `Refresher` holds `currentIP` and a handle on the
  shared `Metrics`. Its `Step` mutates the gauge vector in place through
  `Delete` and `Set`. `Background` runs one `Step` per tick. Both are proved
  to follow `Next` and `Run`.
- `Config` (config.dfy): the empty-string defaulting, as pure functions of
  the two environment values.

The resolver's result is an input to each tick: `Ok(ip)` or `Err`. The
environment values are plain string inputs. The gauge value is the integer 1
(`Gauge.Active`), not a float.

## Model

| member | source | states |
|---|---|---|
| `Gauge.GaugeVec.constructor` | main.go:73-79 | `NewGaugeVec`: the new vector carries the given family name, help text and label name and holds no series |
| `Gauge.GaugeVec.Delete` | main.go:37 | removes exactly the series of the given label value and keeps every other series; reports whether one was there; absent label leaves the map as it was |
| `Gauge.GaugeVec.Set` | main.go:39 | afterwards the given label carries the given value and every other series is unchanged (created or overwritten) |
| `Gauge.Metrics.Register` | main.go:71-83 | the metrics handle owns a fresh gauge vector named `node_public_ip`, with the source's help text and the label `address`, and with no series |
| `Refresh.Initial` | main.go:26 | the start-up state (no address tracked, gauge empty) satisfies the consistency invariant |
| `Refresh.Next` | main.go:29-41 | a failed lookup leaves the state unchanged; a lookup of the tracked address changes nothing; any success makes the resolved address the tracked one; a new address removes the old series and sets the new one to 1; the invariant is preserved; under the invariant the gauge after a change is exactly `{new: 1}` |
| `Refresh.InvAtMostOneSeries` | main.go:37-39 | while the invariant holds, the gauge has at most one series, labelled with the tracked address and valued 1 |
| `Refresh.NextIdempotent` | main.go:35 | handing the same outcome to a tick twice gives the same state as once |
| `Refresh.ColdStartEmptyAddress` | main.go:26-35 | at cold start a lookup of `""` equals the tracked address, so nothing is published |
| `Refresh.Run` | main.go:28-41 | the `for range` loop over ticks as a fold of `Next`; it has no contract of its own, and `RunPreservesInv`, `RunCurrentIPIsLastOk` and `RunFromInitialGauge` give its meaning |
| `Refresh.RunPreservesInv` | main.go:28-41 | any sequence of ticks from a consistent state ends in a consistent state |
| `Refresh.RunCurrentIPIsLastOk` | main.go:28-41 | after any sequence of ticks the tracked address is the one the last successful tick resolved; when every tick failed, the whole state is unchanged |
| `Refresh.RunFromInitialGauge` | main.go:26-41 | from start-up, the gauge stays empty until some tick resolves a non-empty address and is exactly `{currentIP: 1}` from then on |
| `Refresh.Scenarios` | main.go:28-41 | first address published; same address again is a no-op; a change leaves only the new address; a failed tick changes nothing; an empty address replaces the active one with label `""` |
| `Refresh.Refresher.constructor` | main.go:26 | the task starts tracking `""` over the given, empty gauge vector, in the initial state |
| `Refresh.Refresher.Step` | main.go:29-41 | one in-place tick moves the object's state exactly as `Next` says and keeps the invariant |
| `Refresh.Background` | main.go:24-42 | after one `Step` per tick from start-up, the state is `Run(Initial(), ticks)` and consistent; the tracked address is the last successfully resolved one; the gauge is empty until a non-empty address was resolved and `{currentIP: 1}` after |
| `Config.OrDefault` | main.go:93-98 | an empty value gives the fallback, any other value is kept; the result is never empty when the fallback is not |
| `Config.Load` | main.go:90-98 | port and path are never empty; each is the environment value, or the default when that value is empty |
| `Config.LoadUsesDefaultExactlyWhenEmpty` | main.go:93-98 | each setting equals the environment value if and only if that value is non-empty; otherwise it takes the fallback branch (the default) |

## Left out

- The body of `getIP` (main.go:47-63): the HTTP request, reading the body and
  JSON decoding are network I/O and library calls. Its outcome enters the
  model as the `Outcome` of a tick.
- The ticker and the goroutine (main.go:25, 28, 105): timing and concurrency.
  One tick is one atomic `Step`. `Background` covers any finite prefix of the
  ticks, never the endless loop.
- The window between `Delete` and `Set` in which a concurrent scrape could see
  no series: the model has no concurrent readers.
- Registration with the registry and its duplicate-registration panic
  (main.go:81), the scrape handler and the exposition format (main.go:106),
  and the metrics library's real `GaugeVec`. Only the map semantics above are
  kept, as an assumption.
- The `float64(1)` value (main.go:39): the model uses the integer 1.
- `os.Getenv`, the printed log lines, and `http.ListenAndServe` with
  `log.Fatal` (main.go:30, 32, 91-92, 99, 107): environment and process I/O.
  The environment values are parameters of `Config.Load`.
