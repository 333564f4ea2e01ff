# Capture supervisor `run_bot`, modelled in Dafny

This project models one feed's capture supervisor, `run_bot` in `main.py`. The supervisor watches a live multiplier feed in a browser session and writes each new value to a store.

`run_bot` runs two nested loops. The outer loop starts a browser session: driver, login, and game frame. The inner loop polls every 0.15 s. Each poll goes through four stages:

- **Guards.** A scheduled restart fires at most once per calendar day, and only while a session is polling, in the first six minutes after midnight on the Sao Paulo clock. An inactivity failure fires after more than 360 s without a new value.
- **Read.** The payout text is read. Every `x` is deleted and the surrounding whitespace is trimmed.
- **Skip.** Empty or unparseable text is skipped.
- **Write.** A value that differs from the last one written (`LAST`) is written to `<firebase_path>/<YYYY-MM-DD_HH-MM-SS-ffffff>`. The entry holds four fields: the value with two decimals, `HH:MM:SS`, `"default-bg"` and `YYYY-MM-DD`.

Any exception inside the read/write block makes the loop search for the frame again. This includes a failed store write. If the search finds nothing, the inactivity guard fires, `driver.quit()` raises during the scheduled restart, or starting the session fails, the session is torn down and rebuilt after 5 s. A new session always starts with `LAST = None`. `restart_day` lives outside both loops, so it survives every recovery.

The browser, the store and the clocks are inputs. Each iteration of whichever loop is running consumes one `Tick`, which records:

- the launch outcome;
- the wall-clock fields;
- the `time()` clock, which is the system's epoch clock;
- whether `driver.quit()` returned;
- the reading (text, or a failed lookup);
- whether the store accepted the write;
- the relocation outcome.

The project has seven modules, one per file:

| file | module | contents |
|---|---|---|
| `wrappers.dfy` | `Wrappers` | `Option` |
| `digits.dfy` | `Digits` | Digit strings and zero padding. |
| `text.dfy` | `Text` | Normalising the payout text. |
| `decimal.dfy` | `Decimal` | Parsing a decimal literal into an exact sign–magnitude value, equality of values, and two-decimal rounding and formatting. |
| `clock.dfy` | `Clock` | Calendar fields, the `strftime` strings, and the record key with its decoder. |
| `supervisor.dfy` | `Supervisor` | The state, the one-iteration specification `Next`, the run `Run`, and the imperative `RunBot` with its two loops. |
| `properties.dfy` | `FeedProperties` | Lemmas over `Next` and `Run`. |

`RunBot` is proved to compute exactly the writes and actions of `Run`. The properties are proved about `Run`.

Behaviour of the code worth noting:

- **Deleting `x`.** The code deletes every `x` anywhere in the text, not only the unit marker at the end.
- **Failed write.** A failed store write is not swallowed. It goes to frame relocation, and escalates to full recovery when the frame is gone. `LAST` is still unchanged, so the value is written again on the next read.
- **Colour.** The entry's `color` field is always `"default-bg"` (main.py:178), whatever the value.

## Model

| member | source | states |
|---|---|---|
| Supervisor.RunBot | main.py:122-201 | The two nested loops, run over any sequence of ticks, produce exactly the store writes and per-iteration actions of the specification `Run` from the initial state with `restart_day` set to today. |
| Supervisor.Init | main.py:122-127 | The state on entry to `run_bot`: no session yet, no baseline, an empty log, and `restart_day` set to the given today. |
| Supervisor.Next | main.py:133-195 | One iteration of whichever loop runs. Session start resets `LAST` and the clock. Then come the restart guard, the inactivity guard, the lookup, the skip, no-change, and the write followed by `LAST`, with relocation on failure. Its properties are stated by the `FeedProperties` step lemmas. |
| Supervisor.Run | main.py:129-201 | The state and actions after a sequence of iterations; `RunBot` is proved equal to it and the run lemmas are stated over it. |
| Supervisor.ReadValue | main.py:160-170 | The normalised text, or nothing when it is empty or does not parse; see `SkipIff`, `ScenarioValues` and `DiffersIsInequality`. |
| Supervisor.Differs | main.py:172 | `val != LAST`, with no baseline differing from every value; `DiffersIsInequality` proves it is numeric inequality. |
| Supervisor.RestartDue | main.py:149 | Hour 0, minute at most 5, and a date other than `restart_day`; see `RestartIff` and `GuardOrder`. |
| Supervisor.Inactive | main.py:155 | Strictly more than 360 s since the last new value; see `GuardOrder`. |
| Supervisor.Relocate | main.py:189-193 | The `except` of the poll: keep the session when the frame is found, recover when it is not; see `LookupFailure` and `WriteFailureKeepsBaseline`. |
| Supervisor.MakeEntry | main.py:175-180 | The four fields of the entry; see `EntryShape` and `KeyMatchesEntryStrings`. |
| Supervisor.RecordPath | main.py:182-184 | The feed path, `/`, and the key; see `EntryShape` and `RecordPathInjective`. |
| Supervisor.Pause | main.py:163-201 | The sleep after each action: 0.15 s after a skip, no change or a write, 5 s after a recovery, none otherwise; see `EmitMovesBaseline`, `LookupFailure`, `RestartIff` and `RecoveryTearsDown`. |
| Text.Strip | main.py:160 | `str.strip()`; see `StripTrimmed`, `StripShape` and `StripOf`. |
| Text.Normalize | main.py:160 | `replace("x", "")` then `strip()`; see `NormalizeShape` and `NormalizeIdempotent`. |
| Decimal.SameNumber | main.py:172 | Equality of parsed values; `SameNumberIsNumEq` proves it is numeric equality. |
| Clock.ClockString | main.py:182 | `%H-%M-%S-%f`, exactly fifteen characters; see `ClockLayout` and `ClockRoundTrip`. |
| Clock.ClockLayout | main.py:182 | The zero-padded hour, minute, second and six-digit microsecond, separated by `-`. |
| Clock.ParseKey | main.py:182 | Reads a key back into an instant; `KeyRoundTrip` proves it inverts `Key`. |
| Supervisor.PollOnce | main.py:147-195 | One pass of the poll loop equals `Next` on the polling state. It covers the restart break, the inactivity raise, skip and no-change, the write followed by `LAST := val`, and relocation or recovery on failure. It also reports whether the pass leaves the poll loop. |
| FeedProperties.SkipIff | main.py:158-170 | An iteration skips if and only if the session is polling, both guards pass, and the text normalises to nothing or to no number. A skip leaves `LAST`, the inactivity clock, `restart_day` and the log unchanged. |
| FeedProperties.MalformedReadings | main.py:160-170 | `""`, `"x"` and `" x "` read as no value. |
| FeedProperties.NonNumericReading | main.py:166-170 | `"abc"` reads as no value. |
| FeedProperties.EmitIff | main.py:172-187 | A write is appended if and only if the session is polling, the guards pass, the text parses, the value differs from `LAST`, and the store accepts it. The log grows by exactly that write and by nothing otherwise. |
| FeedProperties.EmitMovesBaseline | main.py:172-187 | After a write, `LAST` is the written value and the inactivity clock is the time of the write. The write carries the parsed reading and the wall-clock instant. The loop keeps polling, keeps `restart_day`, and sleeps the polling interval. |
| FeedProperties.DiffersIsInequality | main.py:167-172 | On a parsed reading, `val != LAST` holds if and only if there is no baseline or the two numbers are not equal. |
| FeedProperties.UnchangedIff | main.py:172 | A readable value equal to `LAST` changes nothing, and this happens exactly when the guards pass and the value does not differ. |
| FeedProperties.WriteFailureKeepsBaseline | main.py:172-193 | After a failed store write, the inactivity clock is already reset but `LAST` and the log are unchanged. The loop relocates if the frame is found, and recovers if it is not. |
| FeedProperties.WriteFailureReemits | main.py:184-193 | After a failed write and a successful relocation, the same reading is written on the next iteration. |
| FeedProperties.LookupFailure | main.py:158-193 | A failed element lookup leads to relocation. If the frame is found, the state is unchanged and there is no pause. If it is not found, full recovery follows. |
| FeedProperties.RestartIff | main.py:148-153 | The scheduled restart fires exactly at hour 0, minute at most 5, on a date other than `restart_day`, when `driver.quit()` returns. It sets `restart_day` to today and leaves the poll loop with no pause. |
| FeedProperties.RestartDayKept | main.py:127-153 | `restart_day` changes only through a scheduled restart. Recoveries keep it. |
| FeedProperties.GuardOrder | main.py:148-156 | A due restart pre-empts the inactivity check. The inactivity failure fires exactly when the restart is not due and more than 360 s have passed. |
| FeedProperties.RecoveryTearsDown | main.py:129-201 | Every failure returns to session start. It pauses 5 s, writes nothing, and keeps `restart_day`. |
| FeedProperties.SessionStartResets | main.py:133-144 | A successful session start sets `LAST` to none and restarts the inactivity clock. A failed start leads to recovery. |
| FeedProperties.FirstValueAfterRecoveryEmitted | main.py:143-187 | After any recovery and a successful restart, the first readable value is written, whatever the value before the teardown was. |
| FeedProperties.EntryShape | main.py:175-184 | The entry's colour is `"default-bg"`. The path is the feed path, `/`, and a 26-character key that decodes back to the instant. The entry's date is the key's first ten characters. A value with at most two decimals reads back from the multiplier. |
| FeedProperties.RecordPathInjective | main.py:182-184 | Two writes of one feed go to the same path if and only if they were made at the same valid instant. |
| FeedProperties.LogIsEmittedWrites | main.py:172-187 | Over any run, the store receives exactly the writes of the emitting iterations, in order, and nothing else. |
| FeedProperties.SteadyStep | main.py:158-195 | After a skip, no change or write, the session is still polling with the same `restart_day`. A write happens exactly when the tick shows a value that differs from `LAST`, and that value becomes `LAST`. |
| FeedProperties.RelocatedStep | main.py:189-193 | A relocation after a failed lookup leaves the whole state unchanged and shows no value. |
| FeedProperties.KeptStep | main.py:158-195 | The facts of `SteadyStep` also hold for a relocation after a failed lookup. |
| FeedProperties.SteadyIff | main.py:148-195 | A polling iteration ends in a skip, no change or write if and only if no guard fires, the payout text is found, and the store accepts any changed value. |
| FeedProperties.RunDedup | main.py:146-195 | Take any run, however long, whose every iteration is a skip, no change, write, or relocation after a failed lookup. The session is still polling at the end. The values written are exactly the run-length change sequence of the values shown, starting from `LAST`. |
| FeedProperties.DedupGlue | main.py:172-187 | The inductive step of `RunDedup`, stated on sequences alone: one tick's optional value prepended to the rest. |
| FeedProperties.ChangesHasNoRepeats | main.py:172 | The first value the change sequence keeps differs from the baseline, and no two values it keeps in a row are equal. |
| FeedProperties.ChangesOfRepeat | main.py:172 | Any run of k ≥ 1 equal values gives exactly one write, or none if the values equal the baseline. |
| FeedProperties.RestartsStrictlyIncrease | main.py:127-153 | On a wall clock that never goes back a day, the days of successive scheduled restarts strictly increase, across any number of recoveries. The first differs from the initial `restart_day`. All fall on or after the first tick's date. |
| FeedProperties.IncreasingDistinct | main.py:149-152 | Strictly increasing restart days are pairwise distinct: at most one scheduled restart per calendar day. |
| FeedProperties.EmitStep | main.py:172-187 | With a changed value, passing guards and an accepted write, the iteration's new state and action are given in full. |
| FeedProperties.BlankRepeatChange | main.py:158-187 | A blank reading, then a value, then the same value, then a new value, all on calm ticks, give exactly two writes: the first value and the new one. |
| FeedProperties.BlankThenValue | main.py:162-187 | A blank reading is skipped and the following changed value is written. |
| FeedProperties.RepeatThenChange | main.py:172-187 | A repeat of `LAST` is ignored and the following new value is written. |
| FeedProperties.ScenarioValues | main.py:160-167 | `""` reads as nothing. `"1.50x"` reads as 1.5 and `"2.00x"` reads as 2. |
| FeedProperties.NormalizeUnit | main.py:160 | A trimmed number without `x`, followed by a unit `x`, normalises to the number. |
| FeedProperties.FourReadingScenario | main.py:158-187 | Readings `""`, `"1.50x"`, `"1.50x"`, `"2.00x"` in a fresh session write two records, 1.50 at the second instant and 2.00 at the fourth. Their multipliers are `"1.50"` and `"2.00"`. |
| Text.RemoveX | main.py:160 | The result of `replace("x", "")` contains no `x`. |
| Text.RemoveXCounts | main.py:160 | Deletion removes every `x` and keeps every other character with its multiplicity. |
| Text.RemoveXConcat | main.py:160 | Deletion distributes over concatenation, so an `x` is removed wherever it occurs. |
| Text.RemoveXIdentity | main.py:160 | Deletion leaves a string unchanged if and only if it has no `x`. |
| Text.RemoveXShorter | main.py:160 | Deletion never lengthens the text. |
| Text.StripTrimmed | main.py:160 | `strip()` leaves whitespace at neither end. |
| Text.StripShape | main.py:160 | `strip()` cuts its input into leading whitespace, the result, and trailing whitespace. |
| Text.StripOf | main.py:160 | That cut is unique: whitespace, a trimmed core and whitespace strip to exactly the core. |
| Text.NormalizeShape | main.py:160 | The normalised text contains no `x` and is trimmed at both ends. |
| Text.NormalizeIdempotent | main.py:160 | Normalising twice is normalising once. |
| Decimal.Parse | main.py:167 | A successful parse yields a canonical value, with no trailing fractional zero. |
| Decimal.Canonicalize | main.py:167 | The result is canonical and keeps the sign. |
| Decimal.IndexOfFirst | main.py:167 | The decimal-point search finds the first point, or the end of the text if there is none. |
| Decimal.ParseUnsignedOf | main.py:167 | Digits, a point and digits read as the number they spell together, with the fraction length as scale. |
| Decimal.ParseRejects | main.py:166-170 | `"abc"`, `""` and `"."` do not parse. |
| Decimal.ParseOnePointFifty | main.py:167 | `"1.50"` parses to 1.5. |
| Decimal.ParseTwoPointZero | main.py:167 | `"2.00"` parses to 2. |
| Decimal.SameNumberIsNumEq | main.py:172 | On parsed values, the model's equality holds in both directions exactly when the numbers are equal, so `val != LAST` is numeric inequality and `-0 == 0`. |
| Decimal.SameNumberEquivalence | main.py:172 | Value equality is reflexive, symmetric and transitive. |
| Decimal.MagnitudesEqual | main.py:172 | Canonical magnitudes that denote the same number are identical. |
| Decimal.RoundHalfEven | main.py:176 | The result is a nearest multiple of the unit, and an even one on a tie. |
| Decimal.Hundredths | main.py:176 | The value in hundredths is exact up to two decimals and rounded half to even beyond. |
| Decimal.Format2 | main.py:176 | `{val:.2f}` ends in a point and two digits, and starts with `-` exactly for a negative value. |
| Decimal.ParseFormat2Hundredths | main.py:176 | Reading the formatted multiplier gives back the rounded hundredths, with the sign. |
| Decimal.ParseFormat2 | main.py:176 | A canonical value with at most two decimals round-trips through the stored multiplier. |
| Decimal.CanonicalizeScaled | main.py:176 | Canonicalising a value padded with fractional zeros gives back the value. |
| Decimal.Format2OnePointFifty | main.py:176 | 1.5 is stored as `"1.50"`. |
| Decimal.Format2TwoPointZero | main.py:176 | 2 is stored as `"2.00"`. |
| Decimal.Format2NegativeZero | main.py:176 | -0.001 is stored as `"-0.00"`: a negative value that rounds to zero keeps its sign. |
| Digits.Pad | main.py:177-182 | A zero-padded field has exactly its width, only digits, and reads back as the number when the number fits. |
| Digits.NatString | main.py:176 | The integer part has at least one digit, only digits, and reads back as the number. |
| Digits.ValueConcat | main.py:176 | The value of joined digit strings is the left value shifted by the right length, plus the right value. |
| Digits.AllDigitsConcat | main.py:167 | Joined digit strings are digit strings. |
| Clock.DateString | main.py:179 | `%Y-%m-%d` is exactly ten characters. |
| Clock.TimeString | main.py:177 | `%H:%M:%S` is exactly eight characters. |
| Clock.TimeLayout | main.py:177 | `%H:%M:%S` is the zero-padded hour, minute and second, separated by `:`. |
| Clock.Key | main.py:182 | `%Y-%m-%d_%H-%M-%S-%f` is exactly 26 characters. |
| Clock.KeyLayout | main.py:182 | The key is the date string, `_`, and the time part with microseconds. |
| Clock.DateRoundTrip | main.py:179 | A valid date reads back from its date string. |
| Clock.ClockRoundTrip | main.py:182 | A valid time of day reads back from the key's time part. |
| Clock.KeyRoundTrip | main.py:182 | A valid instant reads back from its key. |
| Clock.KeyInjective | main.py:182 | Two valid instants share a key if and only if they are equal, at microsecond resolution. |
| Clock.KeyMatchesEntryStrings | main.py:176-182 | The key starts with the entry's date, and its hour, minute and second fields are those of the entry's time. |

## Left out

- Selenium is not modelled: driver launch and its fallback, the login click sequence, and frame and element waits (main.py:62-117). Their results are inputs: the launch outcome, the reading, and the relocation outcome.
- Firebase is not modelled: initialisation and `db.reference(...).set` (main.py:51-57, 184). The store is a log of writes, and a failed write is an input flag.
- Each write is recorded by its value and instant. Its path and entry are the functions `RecordPath` and `MakeEntry` of those two, and `EntryShape` states what they contain.
- The threads that run one `run_bot` per feed, their staggered start, and `join` (main.py:206-223) are left out. Feeds share no state, so one feed is modelled.
- `sleep` is not executed. `Pause` states how long each action would wait.
- Real clocks are inputs. The two `time()` reads of one iteration (main.py:155, 173) are merged into one tick value.
- The `pytz` conversion to Sao Paulo time (main.py:44, 148) is left out. The wall-clock fields are given as they are.
- The initial `restart_day` comes from `date.today()` in the server's time zone (main.py:127), not Sao Paulo's. `RunBot` takes it as the parameter `today`.
- Decimal.Parse: reads only decimal literals (`[+|-] digits [. [digits]]` or `[+|-] . digits`, so `"1."` is read as `float` reads it). Python's `float` also accepts `inf`, `nan`, exponents, underscores and non-ASCII digits. With `nan`, `val != LAST` is always true.
- Decimal.SameNumberIsNumEq: compares exact decimals, not IEEE doubles. The two agree on literals with at most 15 significant digits whose magnitude lies within a double's normal range, about 2.2·10^-308 to 1.8·10^308. Outside that, distinct literals can become the same double: a 1 after 400 zeros past the point and `0` both become 0.0, and two different 400-digit integers both become `inf`. The source then sees no change where the model writes.
- Decimal.Format2: rounds the exact decimal half to even. `:.2f` rounds the binary double, which can round a tie like 2.675 down. For a value with at most two decimals whose magnitude is below 2^46, about 7.0·10^13, doubles are at most 2^-7 apart, so the nearest double is within 2^-8 (about 0.0039) of the value and both store the same text. That case is what `ParseFormat2` covers. Beyond that bound the two can differ: `float("70368744177664.01")` is the double 70368744177664.015625, which `:.2f` stores as `"70368744177664.02"`, while the model stores `"70368744177664.01"`.
- FeedProperties.RunDedup: does not cover a relocation after a failed store write, although the session keeps polling. The value shown then is not written and `LAST` is unchanged, so it drops out of the writes but not out of the change sequence. For example, if the write of v fails and w is written next, the change sequence is [v, w] but the writes are [w]. `WriteFailureKeepsBaseline` and `WriteFailureReemits` state that case instead.
- Clock.DateString: pads years below 1000 to four digits. Some platforms' `strftime("%Y")` does not.
- The magnitude-to-colour classification is not modelled, because the code hardcodes `"default-bg"` (main.py:178).
- Console output is left out: the `print` calls, and the `exit()` when credentials are missing (main.py:207-209).
- Rebinding of the `iframe` and `hist` handles on relocation is left out. A successful relocation is `Found`.
