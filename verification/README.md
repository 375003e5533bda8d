# Gatus status timelines in Dafny

A model of the timeline engine of the `gatus_status` Red-DiscordBot cog. The cog reads Gatus alert
embeds from a Discord channel. Each embed is one observation: a service name (the "labber"), the
message time, and up or down. The cog folds these observations into a per-service history of
completed legs and reports counts of ups and downs, time up and time down, uptime percentage and
current status.

An observation marks the boundary of a status. So the leg it closes carries the negation of the
status it reports. The first observation of a service seeds a zero-length leg. A later observation
closes a new leg only when it repeats the status stored on the last leg, which happens exactly when
the reported status flipped. The still-open leg runs from the last recorded boundary to `now`.

Modules:

- `Timelines` (`timelines.dfy`): the observation and leg datatypes, `add_entry` as `AddEntry`, the
  fold of a stream into a history, the open leg `End`, and `total_events` / `total_time` with the
  up/down wrappers. Lemmas cover alternation, the flip count, count conservation and telescoping
  durations.
- `Metrics` (`metrics.dfy`): the uptime percentage as an exact `real`.
- `Grouping` (`grouping.dfy`): `from_data`. It makes one timeline per name, in first-seen order,
  with the name's observations fed in input order.
- `Parsing` (`parsing.dfy`): `parse_gatus_embed` and `get_gatus_data` over messages given as
  values. The name comes from the first match of `alert for (.+?) has been`: leftmost start,
  shortest group, no line break in the group. A description with no match gives the name
  "Unknown".

Timestamps and durations are integers (seconds). The wall clock is the explicit parameter `now`.

Three facts about the code shape what the model promises:

- Timelines are not sorted by uptime. `from_data` returns the values of a dictionary, which keeps
  insertion order, so timelines come in the order their names are first seen (`FromDataOrder`).
- Total ups plus total downs is one more than the number of genuine status flips between
  consecutive observations (`EventsCountFlips`).
- Observation dates are neither sorted nor checked. Properties that need ordered dates take
  `Sorted` as a hypothesis.

The `else:` branch after the append in `add_entry` is empty in the source text, which would not
parse. The model treats it as a no-op that leaves the history unchanged.

## Model

| member | source | states |
|---|---|---|
| Timelines.AddEntry | gatus_status/main.py:30-39 | adding an entry appends at most one leg and never changes earlier legs; it appends iff the history is empty or the last leg's status equals the entry's; the new leg ends at the entry's date; afterwards the last leg's status is the negation of the entry's; alternation and chaining are preserved |
| Timelines.SeedLeg | gatus_status/main.py:30-33 | the first entry yields exactly one leg: length 0, ending at the entry's date, with the negated status |
| Timelines.AppendOrIgnore | gatus_status/main.py:35-39 | on a non-empty history an entry repeating the last leg's status appends the leg (entry date − last end, entry date, negated status); otherwise the history is unchanged |
| Timelines.Fold | gatus_status/main.py:30-39 | a history built by successive `add_entry` calls has at most one leg per entry, at least one once an entry was added, alternating statuses, and chained lengths; its last leg carries the negation of the last reported status |
| Timelines.FoldSeed | gatus_status/main.py:30-33 | the first leg of any built history is the zero-length seed from the first entry |
| Timelines.FoldCountsFlips | gatus_status/main.py:35-37 | the number of legs is one plus the number of genuine status flips between consecutive entries |
| Timelines.FoldSorted | gatus_status/main.py:35-37 | with non-decreasing dates every leg length is non-negative and the last leg ends between the first and the last entry's date |
| Timelines.FoldEndsOrdered | gatus_status/main.py:35-37 | with non-decreasing dates the legs' end dates are non-decreasing |
| Timelines.CurrentStatusIsLastReport | gatus_status/main.py:40-42 | the open leg's status (the reported current status) equals the most recently reported status |
| Timelines.Count | gatus_status/main.py:61 | the number of legs with a status is at most the history length and at least one when the first leg has it |
| Timelines.SumWhere | gatus_status/main.py:68 | the summed length of legs with a status is non-negative when all lengths are |
| Timelines.TotalUps | gatus_status/main.py:74-76 | total ups lies in [0, n] for n recorded legs and adds with total downs to exactly n; in an alternating history it is floor(n/2) when the seed leg is up and ceil(n/2) otherwise |
| Timelines.TotalDowns | gatus_status/main.py:70-72 | total downs lies in [0, n]; in an alternating history it is ceil(n/2) when the seed leg is up and floor(n/2) otherwise |
| Timelines.TotalTimeUp | gatus_status/main.py:82-84 | for a chained history, time up plus time down is `now` minus the first leg end; time up is non-negative when leg lengths are and `now` is not before the last leg end |
| Timelines.TotalTimeDown | gatus_status/main.py:78-80 | time down is non-negative when leg lengths are and `now` is not before the last leg end |
| Timelines.TotalEvents | gatus_status/main.py:55-61 | the event count with seed correction and open leg lies between 0 and the history length |
| Timelines.TotalTime | gatus_status/main.py:63-68 | time in a status, open leg included, is non-negative when leg lengths are and `now` is not before the last leg end |
| Timelines.CountSplit | gatus_status/main.py:61 | every leg is counted as exactly one of up or down |
| Timelines.EventsPartition | gatus_status/main.py:55-76 | total ups plus total downs equals the number of recorded legs, and both are non-negative |
| Timelines.AlternatingParity | gatus_status/main.py:35-37 | in an alternating history the status at position i is the first status iff i is even |
| Timelines.AlternatingCount | gatus_status/main.py:61 | an alternating history of n legs has ceil(n/2) legs of its first status and floor(n/2) of the other |
| Timelines.TotalsOfAlternating | gatus_status/main.py:55-76 | for an alternating history of n legs the seed's status has floor(n/2) events and the other ceil(n/2), so ups and downs differ by at most one |
| Timelines.EventsCountFlips | gatus_status/main.py:55-61 | for a built timeline, total ups plus total downs is one plus the number of genuine flips |
| Timelines.SumSplit | gatus_status/main.py:63-68 | up sums plus down sums equal the sum of all leg lengths |
| Timelines.Telescope | gatus_status/main.py:37 | the lengths of a chained history add up to the last leg end minus the first leg end |
| Timelines.TimePartition | gatus_status/main.py:63-84 | time up plus time down equals `now` minus the first leg end |
| Timelines.ElapsedSinceFirstObservation | gatus_status/main.py:63-84 | for a built timeline, time up plus time down is `now` minus the first observation's date, and with ordered dates and `now` after the last one both are non-negative |
| Timelines.SingleUpReport | gatus_status/main.py:30-84 | a single up report gives one up event, zero down events, time up `now` − t0 and no down time |
| Timelines.UpThenDown | gatus_status/main.py:30-84 | an up report then a down report give the seed and one completed up leg, one up and one down event, and time down counted from the down report |
| Metrics.UptimePercentage | gatus_status/main.py:185-189 | the percentage is 100 when the total is not positive and otherwise satisfies pct·(up+down) = 100·up; with non-negative durations it lies in [0, 100] and is 100 iff down time is 0 |
| Metrics.TimelineUptime | gatus_status/main.py:181-189 | a timeline's uptime is 100 when up plus down time is not positive and otherwise satisfies pct·(up+down) = 100·up; with non-negative durations it lies in [0, 100] and is 100 iff down time is 0 |
| Metrics.UptimeInRange | gatus_status/main.py:181-189 | for a timeline built from ordered observations with `now` after the last one, uptime lies in [0, 100] and is 100 iff there was no down time |
| Grouping.Find | gatus_status/main.py:49 | the lookup returns an index holding the name, or -1 exactly when no timeline has that name |
| Grouping.Insert | gatus_status/main.py:49-51 | one loop step adds a timeline exactly for a new name, holding the seed leg; it keeps all names and positions, changes only the entry's own timeline, and feeds it the entry |
| Grouping.FromData | gatus_status/main.py:46-53 | there are never more timelines than observations |
| Grouping.FromDataNames | gatus_status/main.py:46-53 | every timeline is named after some observation, and every observed name has a timeline |
| Grouping.FromDataOrder | gatus_status/main.py:46-53 | timelines appear in strictly increasing order of their name's first occurrence in the input |
| Grouping.FromDataDistinct | gatus_status/main.py:46-53 | no two timelines share a name |
| Grouping.FromDataHistories | gatus_status/main.py:46-53 | each timeline's history is the fold of exactly its own name's observations in input order |
| Grouping.FromDataNonEmpty | gatus_status/main.py:46-53 | each timeline is non-empty and starts with the seed leg from its name's first observation |
| Grouping.GroupMetrics | gatus_status/main.py:159-189 | the service of any observation has a timeline carrying its name; its time up plus time down is `now` minus that service's first observation date; with ordered input and `now` after every observation its uptime lies in [0, 100] |
| Parsing.LazyGroup | gatus_status/main.py:248 | the lazy group finds the shortest group length at a start position that completes a match, or reports that none does |
| Parsing.Search | gatus_status/main.py:248 | the scan finds the leftmost start with a match and the shortest group there, or reports that no start matches |
| Parsing.FirstMatchUnique | gatus_status/main.py:248 | the leftmost-shortest match is unique |
| Parsing.LabberName | gatus_status/main.py:248-252 | the name is the group of the leftmost-shortest match of `alert for (.+?) has been`, or "Unknown" exactly when no match exists |
| Parsing.LabberNameRoundTrip | gatus_status/main.py:248-252 | an alert sentence built from a one-line name reads back as that name when no earlier or shorter match exists |
| Parsing.UnknownWithoutAlertPhrase | gatus_status/main.py:248-252 | a description without "alert for " gives the name "Unknown" |
| Parsing.ParseGatusEmbed | gatus_status/main.py:245-259 | parsing succeeds iff the description exists and there is a first field (a missing description is reported first); the date is the message's, the status is up iff the first field contains ":white_check_mark:", the name is the extracted one |
| Parsing.AlertsIn | gatus_status/main.py:240-241 | exactly the embeds of one message whose title contains the Gatus marker are picked, each paired with that message |
| Parsing.AlertsInOne | gatus_status/main.py:240-241 | a single embed is picked, paired with its message, exactly when its title carries the Gatus marker |
| Parsing.AlertsInConcat | gatus_status/main.py:240-241 | picking from a concatenation of embed lists concatenates the picks: embed order is kept and each Gatus embed is picked once per occurrence |
| Parsing.AlertsOne | gatus_status/main.py:239-241 | the picks from a single message are that message's own picks |
| Parsing.Alerts | gatus_status/main.py:239-241 | every picked embed belongs to a given message and carries the marker, and every marked embed of every message is picked |
| Parsing.ParseAll | gatus_status/main.py:239-242 | collection succeeds iff every picked embed parses, yielding one observation per embed at the same position; otherwise it fails with the error of the first embed that fails |
| Parsing.GetGatusData | gatus_status/main.py:236-243 | on success there is one observation per Gatus embed, each dated by one of the messages |
| Parsing.AlertsConcat | gatus_status/main.py:239-241 | embeds from earlier messages are picked before those from later ones |
| Parsing.ParseAllConcat | gatus_status/main.py:239-242 | parsing two runs of embeds is parsing the first, then the second, failing at the first failure |
| Parsing.GetGatusDataConcat | gatus_status/main.py:236-243 | collecting from two batches of messages concatenates their observations in message order, or fails with the first batch's error first |
| Parsing.GetGatusDataOneMessage | gatus_status/main.py:240-242 | one message yields one observation per Gatus embed, all dated by that message |

## Left out

- Discord I/O is not modelled: reading channel history, sending and editing messages, typing indicators. Messages are given as a sequence of values.
- Red-DiscordBot `Config` storage of the target channel, and the command and permission decorators, are framework glue and are not modelled.
- Building the report embed is presentation and is not modelled. This covers the `:.5f` formatting, the day/hour/minute split of durations and the emoji thresholds at 99 % and 95 %.
- The percentage is an exact `real`, not a floating-point number.
- `datetime.now(timezone.utc)` is replaced by the parameter `now`. The source reads the clock twice in `end`, so the open leg's length and end may differ by microseconds. That skew is not modelled.
- Timestamps are whole seconds, not microsecond datetimes.
- Regular expressions are modelled for this one pattern only: leftmost start, shortest non-empty group, and `.` not matching a line break.
- Timelines.End: there is no contract. It is the open leg, and its properties appear in `CurrentStatusIsLastReport` and `TimePartition`.
- Timelines.TotalEvents: requires a non-empty history, because `end` raises on an empty one in the source. `from_data` never builds an empty timeline (`FromDataNonEmpty`).
- Timelines.TotalTime: requires a non-empty history for the same reason.
- Parsing.GetGatusData: its own contract states only count and dates. The pointwise content is stated by `ParseAll` and `Alerts`. Embed order and multiplicity within a message are stated by `AlertsInOne` and `AlertsInConcat`, and message order by `AlertsConcat` and `GetGatusDataConcat`.
- Exceptions escaping `parse_gatus_embed` are modelled as `Err` values. The outer handler that logs them and tells the user is not modelled.
