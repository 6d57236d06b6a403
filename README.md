# otelnetstatsreceiver: the delta-sampling path

This project models the core of the OpenTelemetry network-statistics
receiver in Dafny. That core turns a Linux `/proc/net/dev` table into a
byte counter. It then turns the cumulative counter into a per-tick usage
delta, keeping the last observed value in a key/value persister.

- **Scraper** (`scraper.dfy`). The Linux network-devices scraper. It finds
  the first line of the table that contains `<interface>:` as a substring.
  Field 1 of that line gives the received bytes and field 9 the
  transmitted bytes. An empty interface name falls back to `eth0`. The
  scan is a `while` loop over the lines with an early return. It is proved
  equal to a functional specification `Stats`.
- **Sampler** (`sampler.dfy`). `FileBasedSampler.Sample` opens the file,
  scrapes it, closes it and returns the wrapped `uint64` sum of the two
  counters. The file system is a class holding a map from path to
  contents (or an open failure). Ghost counters of opens and closes state
  the handle discipline.
- **Usage** (`usage.dfy`). What both emitters share:
  - the persister, a class whose `store` map `Get` and `Set` read and
    overwrite;
  - the baseline parsed from the store;
  - the wrapped delta;
  - the usage record.
- **Adapter** (`adapter.dfy`). Three parts of the receiver adapter:
  - `logEntry`, a method on the persister and the file system;
  - `SamplerEmitterFactory`;
  - the identity fields read from the environment, including the `workerID`
    rewrite and the `billingEnabled` test.
- **Input** (`input.dfy`). The stanza input operator's `emit`, a method on
  an `Input` object. The object records the entries it writes, its log
  lines and a ghost trace of its side effects. That trace shows that the
  entry is written before the sample is persisted.
- **StatsConsumer** (`statsconsumer.dfy`). `Config.Build`, which validates
  `start_at`.
- **Base**, **Strconv** and **Text** (`base.dfy`, `strconv.dfy`,
  `text.dfy`) model the Go library behaviour that this code relies on:
  - `uint64` wrap-around arithmetic;
  - a Go call's result-or-panic, as `Outcome`;
  - `strconv.ParseUint` and `strconv.FormatUint` in base 10;
  - `strings.Index`, `Contains`, `Fields` and `ReplaceAll`;
  - `bufio.Scanner` line splitting.

How Go behaviour is represented:

- A Go call returning `(value, error)` ends in `Returned(value, err)`,
  where `err` is `None` for nil. A runtime panic ends in
  `Panicked(reason)`.
- A matching line with fewer than ten fields makes `fields[1]` or
  `fields[9]` index out of range. This is modelled as that panic, not as a
  precondition. It unwinds through `Sample`, whose deferred close still
  runs. It also unwinds through both emitters before they persist
  anything.
- `ParseUint` is modelled exactly. A syntax error yields 0 and a range
  error yields 2^64 - 1. The scraper and `logEntry` discard the error;
  `emit` logs "Error" for an unparsable stored count and carries on with
  the fallback value.
- The environment, the clock (Unix seconds), the random event id and
  whether stanza's `NewEntry` fails are parameters.

Behaviour worth knowing:

- Field 9 is the tenth field, so in the row `eth0: 100 0 0 0 0 0 0 0 0 200`
  it is `0`, not `200`: the transmitted bytes are 0.
- The file-logger emitter's `URI` field receives the output type
  (`"file_logger"`). The configured URI only names the rotating log file.
- `logEntry` keeps its count under `"LAST_COUNT"` and `emit` under
  `"last_count"`. These are two different keys.
- Matching is by substring, so a `veth0:` row ahead of the `eth0:` row is
  the one the default scraper reads (`Scraper.ScrapeMatchesSubstring`).

## Model

| member | source | states |
|---|---|---|
| Base.Add64 | internal/netstats/sampler/sampler.go:48 | the sum of two `uint64` counters is exact below 2^64 and loses 2^64 above it |
| Base.Sub64 | internal/adapter/sampleremitter.go:143 | `samp - last_count` is exact when the baseline is not larger, and wraps to 2^64 + a - b (never clamped) when it is |
| Base.SubThenAdd | internal/adapter/sampleremitter.go:143 | adding the baseline back to a wrapped delta gives the sample again |
| Strconv.ParseUint | internal/adapter/sampleremitter.go:117 | parsing succeeds exactly on non-empty digit strings whose value is below 2^64, and then gives that value; otherwise 0 on a syntax error and 2^64 - 1 on a range error |
| Strconv.FormatUint | internal/adapter/sampleremitter.go:123 | the stored text is the canonical decimal numeral of the sample |
| Strconv.ParseFormat | internal/adapter/sampleremitter.go:117-123 | a count written with `FormatUint` parses back to itself without error |
| Strconv.FormatParse | internal/adapter/sampleremitter.go:117-123 | on canonical numerals below 2^64, formatting the parsed value gives the text back |
| Strconv.ParseLeadingNonDigit | internal/netstats/scraper/linux_networkstatsscraper.go:35-36 | text starting with a non-digit is a syntax error with value 0, whatever follows |
| Strconv.ParseShortNonNumeral | internal/netstats/scraper/linux_networkstatsscraper.go:35-36 | text of at most 19 characters that is not all digits is a syntax error with value 0, since at most 18 digits come before its first non-digit and they cannot overflow |
| Strconv.ParseOverflowingPrefix | internal/netstats/scraper/linux_networkstatsscraper.go:35-36 | text whose leading digits already exceed the largest `uint64` is a range error with value 2^64 - 1, whatever follows, because the first error decides |
| Strconv.LongNonNumeralOverflows | internal/netstats/scraper/linux_networkstatsscraper.go:35-36 | twenty nines followed by `x` read as 2^64 - 1 with a range error, not as 0 |
| Text.Index | internal/netstats/scraper/linux_networkstatsscraper.go:33 | the result is -1 exactly when there is no occurrence; otherwise the pattern occurs there and nowhere earlier |
| Text.Contains | internal/netstats/scraper/linux_networkstatsscraper.go:33 | true exactly when the pattern occurs at some position |
| Text.Lines | internal/netstats/scraper/linux_networkstatsscraper.go:30-32 | the line tokens of `bufio.Scanner`: no token it yields holds a newline |
| Text.UnlinesLines | internal/netstats/scraper/linux_networkstatsscraper.go:30-32 | re-joining the scanned lines gives the text back, plus a final newline if it lacked one |
| Text.LinesUnlines | internal/netstats/scraper/linux_networkstatsscraper.go:30-32 | newline-free lines joined with newlines scan back to the same lines |
| Text.LinesAppend | internal/netstats/scraper/linux_networkstatsscraper.go:30-32 | text ending in a newline scans independently of what follows it |
| Text.Fields | internal/netstats/scraper/linux_networkstatsscraper.go:34 | every field is a non-empty run of non-space characters |
| Text.FieldsSkipSpaces | internal/netstats/scraper/linux_networkstatsscraper.go:34 | leading white space does not change the fields |
| Text.FieldsJoinWords | internal/netstats/scraper/linux_networkstatsscraper.go:34 | words joined by single spaces split back into the same words |
| Text.FieldsOfWord | internal/netstats/scraper/linux_networkstatsscraper.go:34 | a word followed by nothing or by white space is the first field, followed by the fields of the rest |
| Text.ReplaceAll | internal/adapter/sampleremitter.go:130 | `strings.ReplaceAll`: text without the pattern is left unchanged |
| Text.ReplaceAllLeading | internal/adapter/sampleremitter.go:130 | a leading occurrence is replaced, and the rest is rewritten on its own |
| Text.ReplaceAllStep | internal/adapter/sampleremitter.go:130 | when no occurrence starts inside `x`, the occurrence after `x` is the one replaced; `x` is kept and the rest is rewritten on its own |
| Text.ReplaceAllInterleave | internal/adapter/sampleremitter.go:130 | pieces joined by the pattern, none of which starts an occurrence, come out joined by the replacement instead: every occurrence is replaced |
| Scraper.NewWithInterface | internal/netstats/scraper/linux_networkstatsscraper.go:16-23 | the empty name becomes "eth0"; any other name is kept verbatim |
| Scraper.NewDefault | internal/netstats/scraper/linux_networkstatsscraper.go:25-27 | the no-argument constructor scrapes "eth0" |
| Scraper.EmptyNameMeansDefault | internal/network_stats/scraper/linux_networkstatsscraper_test.go:9-19 | the empty name, "eth0" and the default constructor give the same scraper and the same result on any text |
| Scraper.FirstMatch | internal/netstats/scraper/linux_networkstatsscraper.go:31-33 | the index of the first line containing the pattern: it contains the pattern (if in range) and no earlier line does |
| Scraper.StatsOfLine | internal/netstats/scraper/linux_networkstatsscraper.go:34-40 | a matching line returns, without error, exactly when it has at least ten fields, and then its counters are `ParseUint` of fields 1 and 9; with fewer than two fields it panics on index 1, otherwise on index 9 |
| Scraper.LinuxNetworkDevicesFileScraper.Scrape | internal/netstats/scraper/linux_networkstatsscraper.go:29-45 | the line loop with early return computes exactly `Stats`: the first matching line's counters, or zero counters and the not-found error |
| Scraper.ScrapeReadsFirstMatch | internal/netstats/scraper/linux_networkstatsscraper.go:31-40 | if line k is the first containing `<name>:`, the result is read off line k |
| Scraper.ScrapeNotFound | internal/netstats/scraper/linux_networkstatsscraper.go:42-44 | scraping fails exactly when no line contains the pattern, and then gives zero counters and "interface '<name>' not found in file info" |
| Scraper.ScrapeIgnoresLaterText | internal/netstats/scraper/linux_networkstatsscraper.go:37-40 | text appended after a matching line never changes the result |
| Scraper.NonNumericFieldReadsZero | internal/netstats/scraper/linux_networkstatsscraper.go:35-36 | a received-bytes or transmitted-bytes field that starts with a non-digit, or that has at most 19 characters and is not all digits, is not an error and that counter reads as 0 |
| Scraper.DeviceLineStats | internal/netstats/scraper/linux_networkstatsscraper.go:34-36 | a kernel table row, with its name indented and its counters in blank-padded columns of any width, yields its first counter as received bytes and its ninth as transmitted bytes |
| Scraper.ColumnsFields | internal/netstats/scraper/linux_networkstatsscraper.go:34 | blank-padded counter columns split into the counters' decimal numerals, whatever the padding |
| Scraper.RowFields | internal/netstats/scraper/linux_networkstatsscraper.go:34 | the fields of a padded table row are the name with its colon, then the counters' numerals |
| Scraper.ScrapeDeviceTable | internal/netstats/scraper/linux_networkstatsscraper.go:29-45 | a whole table whose first matching row is the interface's row scrapes to that row's counters, whatever follows |
| Scraper.ScrapeEachInterface | internal/network_stats/scraper/linux_networkstatsscraper_test.go:21-31 | two scrapers over one table each read their own interface's row |
| Scraper.ScrapeMatchesSubstring | internal/netstats/scraper/linux_networkstatsscraper.go:33 | a "veth0" row ahead of the "eth0" row is what the default scraper reads |
| Scraper.ScrapeTable | internal/netstats/scraper/linux_networkstatsscraper.go:29-45 | on a table of newline-free rows, the first row holding the pattern decides the result |
| Sampler.File.ReadAll | internal/netstats/sampler/sampler.go:42 | reading an open handle gives the file's contents |
| Sampler.FileSystem.Open | internal/netstats/sampler/sampler.go:30-33 | a readable path gives a fresh open handle on its contents and counts one open; otherwise no handle and the open error ("no such file or directory" for a missing path) |
| Sampler.FileSystem.Close | internal/netstats/sampler/sampler.go:35-40 | closing marks the handle closed and counts one close |
| Sampler.LinuxScraper | internal/netstats/sampler/sampler.go:25 | the sampler's scraper field behaves as the Linux scraper on every text |
| Sampler.FileBasedSampler.Sample | internal/netstats/sampler/sampler.go:29-51 | the result is `Sampled(files)`; the scraper saw exactly the file's contents, and only after a successful open; every open is matched by a close on every exit |
| Sampler.ProcNetDevSampler | internal/adapter/sampleremitter.go:82 | the emitters sample /proc/net/dev with the default "eth0" scraper |
| Sampler.OpenFailureSkipsScraper | internal/netstats/sampler/sampler.go:30-33 | an open failure returns 0 and the open error, whichever scraper is installed |
| Sampler.MissingFileError | internal/netstats/sampler/sampler_test.go:31-49 | a missing file gives "open <uri>: no such file or directory" |
| Sampler.SampleErrorIff | internal/netstats/sampler/sampler.go:29-51 | the sample is an error exactly when the open fails or the scraper errs, and an error always comes with 0 |
| Sampler.ScrapeErrorPropagates | internal/netstats/sampler/sampler.go:42-46 | a scraper error is returned unchanged with value 0 |
| Sampler.SampleIsWrappedSum | internal/netstats/sampler/sampler.go:48-50 | success gives (received + transmitted) mod 2^64, from which either counter recovers the other |
| Sampler.SampleReadsOnlyItsFile | internal/netstats/sampler/sampler.go:30-42 | the sample depends only on the entry at the sampler's URI |
| Sampler.SampleDeviceTable | internal/netstats/sampler/sampler.go:29-51 | sampling a device table gives the interface's received plus transmitted bytes, mod 2^64 |
| Usage.Lookup | internal/adapter/sampleremitter.go:111 | the stored value is present exactly when the key is set |
| Usage.Persister.Get | internal/adapter/sampleremitter.go:111 | reads the value under the key, or nil when the key is unset, without changing the store |
| Usage.Persister.Set | internal/adapter/sampleremitter.go:123 | overwrites the key and nothing else |
| Usage.LastCount | internal/adapter/sampleremitter.go:113-119 | an absent value is a baseline of 0; a parseable one is its numeric value |
| Usage.Delta | internal/adapter/sampleremitter.go:143 | the reported usage plus the baseline, mod 2^64, is the sample |
| Usage.PersistedCountReadsBack | internal/adapter/sampleremitter.go:117-123 | a sample written as decimal is read back as the same baseline |
| Usage.StoreSample | internal/adapter/sampleremitter.go:123 | storing writes `FormatUint` of the sample under the key, adds only that key, keeps every other entry, and makes the sample the next baseline |
| Usage.ConsecutiveDeltas | internal/adapter/sampleremitter.go:111-143 | after a tick stores `a`, a tick sampling `b` reports (b - a) mod 2^64, and 2^64 - (a - b) when the counter went down |
| Usage.MakeEntry | internal/adapter/sampleremitter.go:135-154 | the record has format "v1", the schema metadata and one event; the event carries the id, the record's timestamp, the usage and each identity field, with the deployment id as its asset id |
| Adapter.Getenv | internal/adapter/sampleremitter.go:125-130 | an unset variable reads as "" |
| Adapter.BillingEnabled | internal/adapter/sampleremitter.go:129 | billing is on exactly when MULE_BILLING_ENABLED is the literal "true" |
| Adapter.WorkerID | internal/adapter/sampleremitter.go:130 | the worker id always starts with "worker-" |
| Adapter.WorkerIDStripsAppPrefix | internal/adapter/sampleremitter.go:130 | the pod "<app>-<suffix>" gives "worker-<suffix>" when the suffix holds no further "<app>-" |
| Adapter.WorkerIDKeepsForeignPod | internal/adapter/sampleremitter.go:130 | a pod name without "<app>-" is kept verbatim after "worker-" |
| Adapter.WorkerIDRemovesEveryAppPrefix | internal/adapter/sampleremitter.go:130 | a pod name made of pieces joined by "<app>-" gives "worker-" followed by the pieces with every joining "<app>-" removed |
| Adapter.EnvIdentity | internal/adapter/sampleremitter.go:125-144 | org, env, deployment and root org come from ORG_ID, ENV_ID, DEPLOYMENT_ID and ROOT_ORG_ID; the worker id and billing flag come from their derivations |
| Adapter.LogEntryResult | internal/adapter/sampleremitter.go:110-158 | a sampler panic unwinds; otherwise one event whose usage is the sample minus the stored baseline, stamped at seconds times 1000, carrying the id, WorkerID, BillingEnabled, and DEPLOYMENT_ID as asset id with the other identity variables |
| Adapter.LogEntryStore | internal/adapter/sampleremitter.go:121-123 | the sample, not the delta, is stored under LAST_COUNT unless the sampler panicked |
| Adapter.LogEntry | internal/adapter/sampleremitter.go:110-158 | the tick returns `LogEntryResult` and leaves the store as `LogEntryStore`, on the baseline read before sampling; it opens the file once when it is readable and closes every handle it opens |
| Adapter.LogEntryTwice | internal/adapter/sampleremitter.go:117-143 | two ticks sampling a then b report (b - a) mod 2^64 on the second, whatever the sampler's errors |
| Adapter.LogEntryFirstTick | internal/adapter/sampleremitter.go:111-119 | with nothing stored, the whole sample is reported |
| Adapter.LogEntryFailedSample | internal/adapter/sampleremitter.go:121-123 | a failed sample is not surfaced: "0" is stored and 0 minus the baseline, wrapped, is reported |
| Adapter.LogEntryGarbageBaseline | internal/adapter/sampleremitter.go:115-118 | a stored value starting with a non-digit reads as baseline 0 |
| Adapter.LogEntryCounterReset | internal/adapter/sampleremitter.go:143 | "1000" stored and 400 sampled reports 2^64 - 600, not 0 |
| Adapter.SamplerEmitterFactory | internal/adapter/sampleremitter.go:81-108 | an emitter is returned exactly when there is no error; it samples /proc/net/dev with the given persister; a nil log emitter panics for "pipeline_emitter" and only there; any other output type gives no emitter and "unknown output type: <output>", whatever the emitter |
| Adapter.FactoryDispatch | internal/adapter/sampleremitter.go:84-107 | unless the pipeline emitter is asked for with a nil log emitter, exactly "file_logger" and "pipeline_emitter" are accepted, each building its own emitter; any other output gives "unknown output type: <output>" with or without a log emitter |
| Adapter.FileLoggerSetup | internal/adapter/sampleremitter.go:85-97 | the file logger rotates its log at the URI at size 100 with 20 backups, and scrapes with the default scraper |
| Input.InputSampler | internal/netstats/input/input.go:67 | `emit` samples its fixed path with the default scraper |
| Input.InputEntry | internal/netstats/input/input.go:71-100 | one event with the fixed identity ("org_id", "env_id", "deployment_id" as asset id, "root_org_id", worker id "worker-", billable), the id, the millisecond timestamp, and usage equal to the sample minus the "last_count" baseline |
| Input.EmitEffects | internal/netstats/input/input.go:104-110 | no effects on a panic or an entry error; otherwise the write, then the persisting of the sample under "last_count" |
| Input.EmitResult | internal/netstats/input/input.go:104-111 | panics exactly when the sampler panics; otherwise nil exactly when the entry was created |
| Input.EmitStore | internal/netstats/input/input.go:104-110 | the store is unchanged on failure; on success it is the store with `FormatUint` of the sample under "last_count" and every other key kept |
| Input.EmitWritten | internal/netstats/input/input.go:104-108 | exactly one entry is written after success and none otherwise, carrying the wrapped delta |
| Input.Input.Emit | internal/netstats/input/input.go:53-112 | the result, the effect trace, the store, the written entries and the log (one "Error" for an unparsable stored count) are those of the specification functions above; the fixed path is opened once when readable and every handle is closed |
| Input.Input.EmitFrom | internal/netstats/input/input.go:53-112 | the same for any sampler, with the opens and closes of its file; the local `last_count++` does not reach the store |
| Input.EmitStoresSample | internal/netstats/input/input.go:108-110 | a success writes the entry and then stores the sample itself, which reads back as the next baseline |
| Input.EmitEntryErrorKeepsBaseline | internal/netstats/input/input.go:104-107 | an entry-creation error writes nothing, keeps the store and returns "create entry: <err>" |
| Input.EmitTwice | internal/netstats/input/input.go:54-110 | two successful calls sampling a then b report (b - a) mod 2^64 on the second |
| StatsConsumer.Build | internal/netstats/statsconsumer/statsconsumer.go:65-82 | accepts exactly "beginning" and "end", with `fromBeginning` true only for "beginning"; copies the interval and settings; otherwise "invalid start_at location '<value>'" |
| StatsConsumer.BuildRoundTrip | internal/netstats/statsconsumer/statsconsumer.go:68-80 | the built manager's start position gives back the configured `start_at`, and no manager has a rejected value |
| StatsConsumer.BuildRejectsEmpty | internal/netstats/statsconsumer/statsconsumer.go:73-74 | an empty `start_at` is rejected, not defaulted |
| StatsConsumer.BuildIgnoresEmit | internal/netstats/statsconsumer/statsconsumer.go:65-81 | the emit argument does not affect the result |

## Left out

- `Manager.Start`, `startPoller` and `poll`, and the receiver's start, emitter and consumer loops and shutdown: these are tickers, goroutines and cancellation, i.e. concurrency.
- `persistMetrics` in the receiver: it repeats the delta logic and is not part of this model.
- The two emitters' `Emit` wrappers (printing to the logger, or forwarding to the file input): they only pass `logEntry`'s JSON to a sink.
- JSON marshalling of the record: the record is modelled as a value, before encoding.
- `uuid.NewRandom`, `time.Now` and `os.Getenv`: the event id, the clock and the environment are parameters.
- The `ts` computation does not model int64 overflow of seconds times 1000.
- Errors from the persister's `Get` and `Set`: they are discarded in the source; the model's persister cannot fail.
- The close error in `Sample` is only logged; a close is modelled as always succeeding.
- `bufio.Scanner`'s token-size limit and its stripping of a trailing '\r': a line over the limit and CRLF input are not modelled.
- `strings.ReplaceAll` with an empty pattern: the pattern is always `APP_NAME + "-"`, never empty.
- The lumberjack rotation, `log.Logger`, and stanza's `NewEntry` and `Write` internals: `NewEntry`'s failure is a parameter, and a write appends to the written entries.
- Manager's logger, wait group and cancel fields, which only the excluded poller uses.
- `FileBasedDeltaSampler` and `SamplerStorage`: empty declarations with no behaviour.
- `NewFileBasedSampler`: the adapter imports its sampler and scraper from `internal/stats/sampler` and `internal/stats/scraper`; those packages, and the constructor both emitters call, are not part of this model. Both emitters are modelled with the `internal/netstats` sampler and scraper, the constructor being taken as building the sampler from its URI and scraper.
- A read error after a successful open: a file is either readable in full or fails to open. The scraper never checks the scanner's error, so such an error would come back as the not-found error; the model does not express it.
