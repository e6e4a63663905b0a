# Trophy ledger of the shoutout bot, in Dafny

`awards.js` of the shoutout Discord bot keeps each user's trophy count in
the topic of a channel. The topic is a list of lines, one per user:
`<@id>🏆xN`. This model covers the module's topic-based functions:

- `parseAwards` decodes a topic into a ledger object. It reads every line
  that matches `^<@!?(\d+)>🏆x(\d+)$` and skips every other line.
- `serializeAwards` encodes the ledger back into the topic, one line per
  entry.
- `updateAwards(channel, userId, delta)` adds `delta` to one user's count
  (a missing user counts as 0). It throws `NegativeAwardError` when the
  result is not positive. Otherwise it writes the re-encoded ledger back to
  the topic. That rewrite is canonical: skipped lines disappear, `<@!id>`
  becomes `<@id>`, a count's leading zeros go (an id keeps its own) and a
  repeated id keeps only its last count.
- `enqueue` and `processQueue` run jobs one at a time through a
  module-level FIFO `queue` and a `processing` flag. A job that throws is
  logged, and the loop goes on. `awards.js` itself never enqueues
  `updateAwards`, and a direct call to it is not serialised. Taking the
  queue's jobs to be `updateAwards` calls on one channel is this model's
  own pairing.

The bot's own code (bot.js) and its test (test.js) do not call these
functions. They drive an `AwardManager` class, which keeps counts in member
nicknames and is not part of this model.

The project has four files:

- `ledger.dfy` (module `Ledger`): the ledger object as an ordered list of
  entries. A key keeps the place of its first insertion, and assigning to
  it overwrites in place. `ToMap` gives the dictionary view.
- `codec.dfy` (module `Codec`): `parseAwards` and `serializeAwards` on
  strings. It has a layered matcher for the regular expression, JavaScript
  `split('\n')`/`join('\n')`, `parseInt` and number formatting.
- `update.dfy` (module `Update`): the update rule `Apply` on topic text. It
  also has `UpdateAwards`, a method on a `Channel` object whose topic it
  rewrites.
- `queue.dfy` (module `Queue`): the class `AwardQueue`, holding `queue`,
  `processing` and the channel.
  - `Enqueue`, `ProcessQueue` and the loop body keep one invariant: what
    was pushed is what ran, followed by what is pending.
  - The topic is always the result of running what ran, in order, on the
    initial topic.
  - The `enqueue` calls that other callers make while a job is awaited
    are the parameter `interleaved`. They go through the same `Enqueue`,
    which then only pushes, because `processing` is set.

What is proved:

- Parsing the serialisation of any well-formed ledger gives the ledger
  back, entry order included.
- The update rule refuses exactly when the new balance would not be
  positive, and it changes only the user's own entry.
- An empty topic gives the empty ledger, and lines that do not match the
  pattern are ignored.
- Once the queue is drained, every job pushed (before or during the loop)
  has run exactly once and in push order, failed ones included.
- The ledger then equals the update rule folded over the initial ledger.
  Each user's balance is their own deltas applied serially, whatever other
  users' jobs ran in between.

Two behaviours of the code are worth spelling out. The model follows the
code in both:

- `updateAwards` refuses a result of exactly 0 (awards.js:54 tests `<= 0`).
  So an update never brings a count to zero or removes an entry. The
  redeem test in test.js:60-64 expects otherwise: it redeems a user's only
  trophy and expects the count to be gone. That test drives the
  `AwardManager` class, which is not part of this model.
- A delta of 0 is not refused when the user already has a positive count.
  The topic is then rewritten in canonical form, and the decoded ledger is
  unchanged.

## Model

| member | source | states |
|---|---|---|
| Ledger.Get | awards.js:53 | The read `awards[userId]` finds the stored count, or nothing for an absent user. On a ledger with unique keys this agrees with the dictionary view. |
| Ledger.Put | awards.js:53 | The assignment `awards[userId] = count` overwrites an existing key in place, keeping length and order, and appends an absent key at the end. Every other entry stays put, keys stay unique, and the dictionary view changes at `userId` only. |
| Codec.Numeral | awards.js:45 | Formatting a count gives a non-empty digit string with no leading zero. |
| Codec.ValueOfNumeral | awards.js:36 | `parseInt` of a formatted count gives the count back. |
| Codec.Value | awards.js:36 | `parseInt(count, 10)` on a digit string, read as a decimal number with leading zeros allowed. It has no contract of its own; ValueOfNumeral and MatchLineComplete state what it gives. |
| Codec.DigitRun | awards.js:33 | The greedy `\d+` takes the longest prefix made only of digits. |
| Codec.MatchLine | awards.js:33-36 | `line.match(/^<@!?(\d+)>🏆x(\d+)$/)` with the captured id and parsed count. It has no contract of its own; MatchLineComplete and MatchLineSound together say exactly which lines it accepts and what it yields. |
| Codec.MatchLineComplete | awards.js:33-36 | Every line `<@` + optional `!` + digits + `>🏆x` + digits matches. It yields that id and the decimal value of the count, leading zeros included. |
| Codec.MatchLineSound | awards.js:33-36 | Only such lines match: a matched line is exactly a rendered line, with a digit-string id and a count text whose value is the parsed count. |
| Codec.Join | awards.js:46 | `.join('\n')`. It has no contract of its own; Split's contract and SplitJoin state that it is undone by `split('\n')` on newline-free lines. |
| Codec.Split | awards.js:32 | `split('\n')` gives at least one piece. No piece holds a newline, and joining the pieces with newlines gives back the input. |
| Codec.SplitJoin | awards.js:32 | Splitting the newline-join of newline-free lines gives back exactly those lines. |
| Codec.ParseLine | awards.js:33-37 | One step of the `forEach`: a matching line assigns its count to its id, and any other line changes nothing. It has no contract of its own; ParseLinesWellFormed, ParseAwardsMap and NonMatchingLineIgnored state its effect. |
| Codec.ParseLines | awards.js:32-38 | The `forEach` over the lines, one `ParseLine` step each, in order. It has no contract of its own; ParseLinesWellFormed and ParseAwardsMap state what it builds. |
| Codec.ParseLinesWellFormed | awards.js:32-38 | The `forEach` over the lines keeps the ledger's keys unique and every key a digit string. |
| Codec.ParseAwards | awards.js:29-40 | An empty topic gives the empty ledger. Any decoded ledger has unique digit-string keys. |
| Codec.ParseAwardsMap | awards.js:32-38 | The decoded dictionary is that of the matching lines in topic order, a later line for the same id overriding an earlier one. |
| Codec.NonMatchingLineIgnored | awards.js:33-34 | Inserting a non-matching line anywhere in a topic does not change what it decodes to. |
| Codec.FormatLines | awards.js:44-45 | There is one line per ledger entry, in ledger order, each `<@id>🏆xN` for that entry. |
| Codec.FormatLineShape | awards.js:45 | A written line is non-empty, holds no newline and matches the pattern, yielding exactly its entry. |
| Codec.SerializeAwards | awards.js:43-47 | `serializeAwards`: the formatted lines of FormatLines joined by newlines. It has no contract of its own; ParseSerialize and MapRoundTrip state that decoding it gives the ledger back. |
| Codec.ParseSerialize | awards.js:29-47 | For a ledger with unique digit-string ids, decoding its encoding gives the same ledger, in the same order. |
| Codec.MapRoundTrip | awards.js:29-47 | Every dictionary from digit-string ids to counts is recovered, as a dictionary, from the encoding of a listing of it. |
| Update.NextCount | awards.js:53 | The new count: the stored count, 0 when absent, plus the delta. On a ledger with unique keys this is the user's balance in the dictionary view plus the delta. |
| Update.Apply | awards.js:50-58 | The update fails exactly when the user's current balance (0 if absent) plus the delta is at most 0. |
| Update.ApplyDecodes | awards.js:51-57 | A successful update writes a topic that decodes to the old ledger with only `userId` changed, to the old balance plus the delta, which is positive. In the dictionary view only that key changes. |
| Update.UpdateAwards | awards.js:50-58 | It fails with `NegativeAwardError` exactly when the balance plus the delta is not positive, and then the topic is left unchanged. Otherwise the topic becomes the updated encoding. |
| Queue.RunJobsAppend | awards.js:16-23 | Running one list of jobs and then another is running their concatenation. |
| Queue.RunJobsFold | awards.js:16-23 | Running jobs on the topic text, each through the update, is folding the update rule over the decoded ledger, with a refused job leaving the ledger as it was. |
| Queue.FoldBalance | awards.js:12-26 | No lost update: a user's final balance is their own deltas applied serially in queue order, each refused one leaving the balance unchanged, whatever other jobs are interleaved. |
| Queue.AwardQueue.constructor | awards.js:4-5 | The queue starts empty and not processing, with nothing pushed or run. |
| Queue.AwardQueue.Enqueue | awards.js:7-10 | The job is pushed at the tail. When a loop is already running, that is all. Otherwise the loop drains the earlier pending jobs, the new one and every job that arrives meanwhile, in push order, and ends with an empty queue and `processing` cleared. |
| Queue.AwardQueue.Await | awards.js:18-22 | Awaiting a job runs its update to completion. Whether it succeeds or throws, the topic afterwards is the job's effect on the topic before. |
| Queue.AwardQueue.RunHead | awards.js:17-22 | `queue.shift()` removes exactly the head job, which is then run and counted as done. The FIFO invariant holds afterwards. |
| Queue.AwardQueue.AdmitBatch | awards.js:7-10 | Enqueues arriving while a job is awaited only append to the queue, in order. They run nothing and leave the topic alone. |
| Queue.AwardQueue.ProcessQueue | awards.js:12-26 | With `processing` set it returns at once and changes nothing. Otherwise it runs every pending and arriving job exactly once, in push order, failing ones included. It ends with the queue empty, `processing` false, and the topic equal to those jobs run in sequence. |
| Queue.DrainedLedger | awards.js:12-26 | Once the queue is drained, the decoded ledger is the update rule folded over the initial ledger with every pushed job, in push order. |

## Left out

- `console.error` logging of a failed job (awards.js:21). The model records only that the loop carries on.
- The asynchronous timing itself. In JavaScript, `enqueue` returns at the loop's first `await` and the loop goes on later. `Queue.AwardQueue.Enqueue` describes the state once its loop has drained. Enqueues from other callers are modelled only as batches arriving while a job is awaited (the `interleaved` parameter), which is where JavaScript can run them.
- A job is an `updateAwards(channel, userId, delta)` call. `enqueue` accepts any closure, but the model's jobs are only such updates, all on one channel, while the source's module-level queue may serve several channels.
- `channel.setTopic` is a call to the Discord API. It is modelled as assigning the topic. A failed or length-limited write is not modelled.
- A `null` or `undefined` topic is modelled as the empty string: both take the `!topic` branch (awards.js:31).
- JavaScript orders integer-like object keys below 2^32 - 1 numerically ahead of other keys. The model keeps insertion order for every key; Discord user ids are far above that bound.
- Numbers are unbounded. `parseInt` losing precision above 2^53, and `${count}` switching to exponent notation at 10^21, are not modelled. Neither is a non-integer delta.
- The trophy is a single character, where JavaScript holds it as a UTF-16 surrogate pair. Without the `u` flag the regular expression matches that pair literally, so matching is the same.
- Update.ApplyDecodes: stated only for digit-string user ids. The line format can carry only such ids back, and the bot's user ids are Discord snowflakes, which are digit strings. Another id does not decode back to its own entry. Most are never matched by the pattern, and one holding a newline, such as `1>🏆x5\n<@2`, is read back as several entries.
- Queue.RunJobsFold: stated only for jobs with digit-string user ids, for the same reason.
- Queue.DrainedLedger: stated only for jobs with digit-string user ids, for the same reason.
- Update.Apply: the ledger is a plain dictionary, and an absent id counts as 0. In JavaScript, an id naming an inherited `Object.prototype` member (`toString`, `constructor`, `__proto__`) reads that member at awards.js:53. `+ delta` then concatenates strings, the `<= 0` test is false and no error is thrown. The model does not capture this. Discord user ids never name such members.
- The `AwardManager` class, its `whenIdle` and its nickname-suffix encoding (bot.js, test.js) are not defined in awards.js and are not part of this model.
- bot.js, commands.js, bot.mjs, deploy-commands.mjs and dereg.mjs are not part of this model: Discord client setup, interaction handlers and command registration are all I/O.
