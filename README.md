# ikoro availability monitor — a Dafny model of its decision logic

ikoro probes a target URL on a timer. A heartbeat separately checks that the
process can reach the network at all. Each probe result becomes one sample:
OFFLINE when the heartbeat says the process is cut off, otherwise UNAVAILABLE
or AVAILABLE depending on the request. A slower digest drains the sample
buffer, counts the three classes, logs a tab-separated report row and sends
that row by SMS when the success rate is strictly above 70 percent. The SMS
sender lets through only its first `maxMessages` messages.

The model has one module per source file, plus two support modules:

- `Heartbeat` (lib/Heartbeat.js). The class `Countdown` is the countdown
  generator, described by its loop variable. The class `Heartbeat` holds the
  generator and the `online`/`offline` flags, and its `Tick` is the heartbeat
  callback. The pure machine `Pulse`/`Step` specifies `Tick`. Lemmas over
  `Run`, `Trace` and `Decisions` state the cadence of decision ticks and when
  the process goes offline.
- `Monitor` (index.js). `Classify` is the request callback's decision, and
  `Sample` is the value `indicator` builds. The class `Monitor` is `Main`'s
  state: the sample buffer `stats`, the heartbeat, the logger and the SMS
  sender. `Callback` pushes one sample. `Digest` drains the buffer, and its tail `Publish` logs the row and alerts. The method
  `Tally` is the counting `forEach`, and `Summarize`, `Rate` and `Alert`
  specify the report and the alert test. Two ghost sequences record every
  sample pushed and every sample drained. The class invariant
  `pushed == drained + stats` says that no sample is lost or processed twice.
- `Logger` (lib/Logger.js). It has option defaulting, `Join` (the row), its
  partner `Split`, and the class `Logger`, whose `stream` field holds the
  chunks written to the log file.
- `Sms` (lib/SMS.js). It has option defaulting, the cap as a replay function
  `Posted` proved equal to a prefix, and the class `SMS`. Its ghost `posts`
  field records what is handed to the gateway.
- `Format` renders the numbers in a report row: the decimal form of the
  sample count, the two-decimal form of each rate, and a stand-in for the
  time label.
- `Optional` holds the `Option` type for options the caller may leave out.

Two behaviours of the code that are easy to misread:

- A failed decision tick returns before the counter reset
  (lib/Heartbeat.js:31-33). The countdown stays finished, so every following
  tick is again a decision tick until one passes (`StepRule`,
  `SustainedFailureTrips`).
- The note at lib/Heartbeat.js:4-5 fears that a process starting offline
  never switches back to online. Under the tick rule that cannot happen: a
  passing tick from an offline state always ends online (`StepRule`, clause
  `p.offline && !err ==> Step(p, err).online`).

index.js:111 alerts strictly above 70 (`Alert`, `AlertIffRateAboveThreshold`).

Inputs that come from outside become parameters: the request outcome (`err`,
`statusCode`), the heartbeat check outcome (`err`), the time of a probe
(`now`, an integer), and the URL and phone numbers that come from credentials.

## Model

| member | source | states |
|---|---|---|
| Heartbeat.Yields | lib/Heartbeat.js:11-14 | from loop variable `i`, the countdown yields exactly `max(i,0)` values, `i-1` down to 0 |
| Heartbeat.CountdownCadence | lib/Heartbeat.js:11-14 | call number `j` (from 0) to `next()` reports done iff `j` is at least the number of values left; a finished generator stays done |
| Heartbeat.FreshCountdown | lib/Heartbeat.js:8-14 | a fresh countdown yields 2, 1, 0 and reports done from the fourth call on |
| Heartbeat.Countdown.constructor | lib/Heartbeat.js:11-12 | a fresh generator's loop variable is `MAX_FAILURES` |
| Heartbeat.Countdown.Next | lib/Heartbeat.js:13 | `next()` is done iff the `i--` test reads zero or the generator already returned; otherwise it yields the next value of `Yields` |
| Heartbeat.Step | lib/Heartbeat.js:25-42 | a tick keeps `online == !offline`; it ends offline only on a decision tick whose check failed; a passed decision tick restarts the countdown at `MAX_FAILURES`; any other tick counts down by one |
| Heartbeat.StepRule | lib/Heartbeat.js:25-42 | a tick keeps `online == !offline` and "offline only with a finished countdown"; it goes offline iff it is a decision tick whose check failed; a non-decision tick counts down and sets online; a passed decision tick resets and sets online; a failed one leaves the next tick a decision tick; one passing tick while offline restores online |
| Heartbeat.FourFailuresFromStart | lib/Heartbeat.js:22-41 | from construction, four failing ticks give online, online, online, offline |
| Heartbeat.TicksBeforeDecision | lib/Heartbeat.js:27-41 | while the countdown has values left, ticks stay online and count down whatever their checks say, so earlier failures are not accumulated; the decision tick is exactly the one after the remaining values |
| Heartbeat.ResetCadence | lib/Heartbeat.js:36-41 | after a passed decision tick, the next `MAX_FAILURES` ticks are online and the next decision is `MAX_FAILURES + 1` ticks later |
| Heartbeat.OfflineNeedsMoreThanMaxTicks | lib/Heartbeat.js:22-41 | from construction, the process cannot be offline before tick `MAX_FAILURES + 1` |
| Heartbeat.SustainedFailureTrips | lib/Heartbeat.js:27-33 | from any reachable state, `MAX_FAILURES + 1` failing ticks in a row end offline |
| Heartbeat.Heartbeat.constructor | lib/Heartbeat.js:17-63 | construction leaves a fresh countdown and the state online |
| Heartbeat.Heartbeat.SetOnline | lib/Heartbeat.js:44-48 | sets `online` and clears `offline` |
| Heartbeat.Heartbeat.SetOffline | lib/Heartbeat.js:50-54 | clears `online` and sets `offline` |
| Heartbeat.Heartbeat.Tick | lib/Heartbeat.js:25-42 | the callback moves the object's state exactly as `Step`, keeps the invariant, and either keeps the countdown object or installs a fresh one |
| Monitor.Classify | index.js:50-64 | OFFLINE when the heartbeat is offline, whatever the request said; otherwise UNAVAILABLE iff `err` or status is not 200, AVAILABLE iff neither |
| Monitor.ProbesByLiveness | index.js:46-65 | while the heartbeat stays online, N probes give no OFFLINE sample and N AVAILABLE or UNAVAILABLE ones; while it stays offline, all N are OFFLINE |
| Monitor.Probes | index.js:46-65 | N probe callbacks push exactly N samples, one per probe |
| Monitor.Count | index.js:84-91 | no class counts more samples than the batch holds |
| Monitor.CountsPartition | index.js:84-91 | the counts of the three classes add up to the number of samples |
| Monitor.Tally | index.js:80-91 | the counting loop returns each class's count, and the three add up to the batch length |
| Monitor.Summarize | index.js:84-95 | a report's window runs from the first to the last sample's timestamp; its counts are the class counts and add up to the sample count |
| Monitor.RateBounds | index.js:97-99 | a rate lies in [0, 100] and is 100 exactly when every sample is in the class |
| Monitor.ScaledRate | index.js:97-99 | a rate times the batch length is the class count times 100 |
| Monitor.RatesSumTo100 | index.js:97-99 | the offline, failure and success rates of a report sum to exactly 100 |
| Monitor.Alert | index.js:111 | an alert needs at least one AVAILABLE sample, and a non-empty batch of only AVAILABLE samples always alerts |
| Monitor.AlertIffRateAboveThreshold | index.js:111 | the whole-number test `success*100 > 70*n` holds iff the success rate is strictly above `THRESHOLD` |
| Monitor.ThreeOfFourAvailable | index.js:84-113 | the batch available, available, unavailable, available has rates 0, 25 and 75, alerts, and shows the success rate as "75.00" |
| Monitor.ReportFields | index.js:101-108 | a report row has the header's six fields, with the URL second |
| Monitor.ReportRowSplits | index.js:101-108 | the report row of a URL without tabs splits on tabs back into its six fields |
| Monitor.Monitor.constructor | index.js:24-117 | `Main` starts with an empty buffer, an online heartbeat, a tab logger whose only line is the header row, and an SMS sender capped at 2 with nothing sent |
| Monitor.Monitor.Beat | lib/Heartbeat.js:56-60 | one heartbeat timer tick moves the heartbeat state as `Step` and keeps the monitor's invariant |
| Monitor.Monitor.Callback | index.js:46-65 | appends exactly one sample, classified by `Classify` from the current heartbeat flag, and leaves earlier samples unchanged |
| Monitor.Monitor.Digest | index.js:69-114 | on an empty buffer nothing changes; otherwise the buffer is emptied, the drained samples are exactly the earlier buffer in order, one report row is logged, and that row is sent by SMS iff `Alert` holds |
| Monitor.Monitor.Publish | index.js:101-113 | the report row is logged as one chunk, and sent by SMS iff `Alert` holds; otherwise the sender is untouched |
| Monitor.DigestTwice | index.js:72-78 | two digests with no callback in between drain the buffer once; the second finds it empty |
| Logger.OrDefault | lib/Logger.js:14-15 | an absent or empty string option falls back to its default, so the result is never empty, and a present non-empty option is kept |
| Logger.Resolve | lib/Logger.js:13-16 | the delimiter defaults to a tab and the log file to `http.log`; verbose is on only when given as true |
| Logger.Join | lib/Logger.js:24 | joining no fields gives the empty row; the row starts with the first field |
| Logger.Split | lib/Logger.js:24 | splitting a row on a character gives one more piece than that character's occurrences |
| Logger.JoinLength | lib/Logger.js:24 | a row of n >= 1 fields is as long as the fields plus n - 1 delimiters |
| Logger.JoinDelimiterCount | lib/Logger.js:24 | when no field contains the one-character delimiter, a row of n >= 1 fields contains it exactly n - 1 times |
| Logger.SplitJoin | lib/Logger.js:24 | when no field contains the one-character delimiter, splitting the row on it gives back the fields |
| Logger.Logger.constructor | lib/Logger.js:13-21 | the logger's settings are the defaulted options and its stream starts empty |
| Logger.Logger.Log | lib/Logger.js:23-28 | `log` returns the joined row and appends exactly one chunk, the row followed by a newline, after all earlier chunks |
| Sms.ResolveMaxMessages | lib/SMS.js:9-13 | an absent or zero cap falls back to 6, so the cap is never 0; any other given cap is kept |
| Sms.Posted | lib/SMS.js:31-32 | replaying the sends posts `min(calls, cap)` bodies, each equal to the body of the call at the same position |
| Sms.PostedIsPrefix | lib/SMS.js:26-33 | the bodies posted are exactly the first `maxMessages` ones sent, in order, so never more than `maxMessages` |
| Sms.SMS.constructor | lib/SMS.js:11-19 | the sender starts with counter 0, no body and no post; `to`, `from` and the cap are fixed here |
| Sms.SMS.Send | lib/SMS.js:26-34 | every call bumps the counter by one and overwrites the body, which is always the latest body sent; it posts the message iff the earlier call count is below the cap; the URL plays no part |
| Format.NatToString | index.js:104 | a count is written as a non-empty string of decimal digits without a leading zero |
| Format.NatToStringRoundTrip | index.js:104 | reading the decimal text of a count back gives the count |
| Format.IntToString | index.js:102 | a timestamp label is non-empty and contains no tab |
| Format.Hundredths | index.js:97-107 | the shown rate is the nearest whole number of hundredths to `count/total*100`, a tie rounding up |
| Format.Fixed2 | index.js:105-107 | a shown rate is digits, a point and exactly two more digits, without a tab, and those digits read back as the nearest hundredths of the rate (`Hundredths`) |
| Format.HundredthsTextRoundTrip | index.js:105-107 | reading the two-decimal text back gives the hundredths it was written from |

## Left out

- Network and file I/O: `request.get`, `dns.resolve`, the Twilio client and `fs.createWriteStream`. Their outcomes are method parameters. Their effects are sequences: the logger's `stream` and the sender's ghost `posts`.
- Timers (`setInterval`, the 1.2 s, 15 s and 200 ms periods). Each timer callback is one atomic method call (`Monitor.Beat`, `Monitor.Callback`, `Monitor.Digest`). Node runs these callbacks one at a time, so no interleaving inside a callback is modelled.
- Console output and the `verbose` echo, the SMS delivery callback that only prints, and the logger's `close`.
- Loading credentials and trimming the URL. The URL and the phone numbers are constructor parameters.
- `toLocaleTimeString`: its result depends on the locale. `Format.IntToString` of the integer timestamp stands in for it.
- Floating point. Rates are exact reals and the alert test is the whole-number inequality. `Fixed2` rounds the exact quotient half up. It can differ from `toFixed(2)` of the rounded double by one hundredth in rare tie cases.
- The unused `unaccessible` (index.js:44) and `date` (lib/SMS.js:27) variables. `max` (index.js:95) is kept as the report's `windowEnd`, but it is not logged, as in the source.
- The `default` branch of the digest's `switch` (index.js:89). Every sample carries one of the three statuses, so it cannot be taken.
- The options objects are resolved by pure functions rather than mutated in place. No caller reads its options object again, so the difference cannot be observed.
- The message object handed to the gateway is modelled as a snapshot. Later `send` calls overwrite `message.body`, and that could affect a post that is still in flight. This aliasing is not modelled.
- Falsy option values other than absent, `0` and `""` (such as `false`, `null` or `NaN`).
- Logger.JoinDelimiterCount: stated for a one-character delimiter that no field contains. A longer delimiter can overlap its neighbours, so its occurrences are not counted. `Logger.JoinLength` covers every delimiter.
- Logger.SplitJoin: stated for a one-character delimiter, for the same reason.
- Heartbeat.Countdown.Next: the value returned with `done` is 0, where the generator returns `undefined`. No caller uses it.
