# Meeting-slot suggestions and the user record, in Dafny

This project models two parts of a meeting scheduler.

The first is the suggestion engine, class `SchedulingAlgorithm` in
`server/services/schedulingAlgorithm.js`. Given a proposal it works in three steps:

- It cuts fixed-length candidate slots out of the preferred time ranges. A cursor
  starts at each range's start and moves in 15-minute steps.
- It scores every slot. A participant is unavailable when one of their busy
  intervals overlaps the slot. The overlap test is strict and half-open. The
  score adds four terms: an availability share (60 points), a time-of-day band
  (15, 10 or 5), a conflict band (15, 10, 5 or 0) and a priority term. The sum
  is rounded and clamped to [0, 100]. The slot also gets a description.
- It sorts the scored slots by descending score and keeps the first five. The
  sort is stable.

The second is the in-memory list logic of the user document in
`server/models/user.js`:

- `addCalendarConnection` upserts a calendar connection keyed by
  (provider, accountId).
- `incrementLoginCount` counts a login.
- The virtual `fullName` joins and trims the names.
- The virtual `activeCalendarConnections` counts the active connections.

Files:

- `wrappers.dfy`: module `Wrappers`, the `Option` type.
- `scheduling.dfy`: module `Scheduling`.
  - Slot generation: `PossibleSlots`, `GeneratePossibleSlots`.
  - Availability: `Overlaps`, `ParticipantConflict`, `Conflicts`,
    `AvailableCount`, `FindConflict`, `CheckParticipants`.
  - Scoring: `Score`, `Describe`, `Evaluate`, `ScoreSlot`, `ScoreSlots`.
  - Ranking: `SortByScore`, `SortInPlace`, `OptimalTimes`,
    `CalculateOptimalTime`.
- `user.dfy`: module `UserModel`.
  - The specification functions: `AddConnection`, `CountActive`, `Trim`.
  - Class `User`, whose methods update its fields in place.

Modelling choices:

- Timestamps are integer milliseconds. Durations are integer minutes.
- The local start hour of a slot (`Date#getHours`) is a parameter
  `hourOf: int -> int`, because it depends on the host's time zone.
- Score arithmetic is done over `real`. `Math.round` is `floor(x + 0.5)`.
- A priority is `Some(p)` when it is a number. It is `None` when it is not a
  number or is NaN; the source then skips the priority term.
- The three description strings are modelled as the constructors of
  `Description`:
  - `AllAvailable` stands for "모든 참가자 가능".
  - `NoneAvailable` stands for "참가자 없음".
  - `NeedRescheduling(n)` stands for "`n`명 일정 조율 필요".
- Participant ids are a sequence, not a set. The caller builds them as
  `[initiatorId, ...participants]`, so a repeated id is counted twice.
- `Array.prototype.sort` is stable, so the sort is modelled as a stable
  insertion sort:
  - `SortByScore` is the functional specification.
  - `SortInPlace` is an in-place insertion sort on an array, proved equal to
    `SortByScore`.
- The `slots.map` callback of `_scoreSlots` is split into methods:
  - `CheckParticipants` is the loop over participants.
  - `FindConflict` is the inner loop with its `break`.
  - `ScoreSlot` does the arithmetic.
  Together they do what the callback does.
- `new Date()` and the `Date.now` default of `connectedAt` become a parameter
  `now`.

Points where the code does less than one might expect of a scheduler:

- Ties in score are not broken by earliest start, or by anything else. The
  comparator is `b.score - a.score` only. The stable sort therefore keeps equal-score slots
  in generation order, which is range order and then stride order.
  `OptimalTimesRanking` states this.
- Duplicate participant ids are not merged. Each occurrence is evaluated and
  counted.
- Ranges with `start >= end` and non-positive durations are not rejected. The
  generator just runs its loop condition on them.

Note on the caller: `server/models/meetingProposal.js` has no `priority` field.
So `savedProposal.priority` in `server/controllers/proposalController.js:42` is
`undefined`, and in that pipeline the priority term is always skipped (`None`).

## Model

| member | source | states |
|---|---|---|
| `Scheduling.RangeSlots` | server/services/schedulingAlgorithm.js:26-35 | The slots of one range all last the meeting duration and lie between the range start and the range end. |
| `Scheduling.PossibleSlots` | server/services/schedulingAlgorithm.js:21-38 | Every generated slot lasts `duration·60000` ms. |
| `Scheduling.GeneratePossibleSlots` | server/services/schedulingAlgorithm.js:21-38 | The cursor loop over each range yields exactly `PossibleSlots(ranges, duration)`. |
| `Scheduling.RangeSlotsAt` | server/services/schedulingAlgorithm.js:26-35 | The k-th slot of a range is `[start + k·15min, start + k·15min + duration)` and fits the range. The slot count is the first k whose slot would run past the range end. A range shorter than the meeting yields no slot. |
| `Scheduling.PossibleSlotsFit` | server/services/schedulingAlgorithm.js:25-35 | Every generated slot is `duration·60000` ms long and lies within one of the preferred ranges. |
| `Scheduling.PossibleSlotsAppend` | server/services/schedulingAlgorithm.js:25-36 | Ranges are handled independently and in input order. Their slots are concatenated with no de-duplication. |
| `Scheduling.Overlaps` | server/services/schedulingAlgorithm.js:58-59 | The strict test: a busy interval that ends exactly at the slot start, or starts exactly at the slot end, does not overlap. An overlap needs at least one of the two intervals to be non-empty. |
| `Scheduling.OverlapsIffSharedInstant` | server/services/schedulingAlgorithm.js:58-59 | For non-empty intervals, the strict test `start < busyEnd && end > busyStart` holds exactly when slot and busy interval share a millisecond. |
| `Scheduling.BusyOf` | server/services/schedulingAlgorithm.js:52 | The filter keeps exactly the busy intervals whose user id matches, and never more than the input holds. |
| `Scheduling.BusyOfAppend` | server/services/schedulingAlgorithm.js:52 | The filter keeps input order: filtering a concatenation concatenates the filtered parts. |
| `Scheduling.FirstOverlap` | server/services/schedulingAlgorithm.js:54-64 | The result is None iff no interval overlaps. Otherwise it is the first overlapping interval: all earlier ones do not overlap. |
| `Scheduling.ParticipantConflict` | server/services/schedulingAlgorithm.js:50-65 | A participant is unavailable iff one of their busy intervals overlaps the slot. The recorded interval is, in the order of the busy list, their first interval that overlaps: it is theirs, it overlaps, and none of their earlier intervals does. |
| `Scheduling.FirstOverlapOfBusy` | server/services/schedulingAlgorithm.js:52-64 | Because the filter keeps order, the first overlap among a participant's filtered intervals is their first overlapping interval in the whole busy list. |
| `Scheduling.AbuttingIntervalsLeaveAvailable` | server/services/schedulingAlgorithm.js:58-59 | Busy intervals that only touch the slot at an endpoint, or lie outside it, never make a participant unavailable. |
| `Scheduling.Conflicts` | server/services/schedulingAlgorithm.js:50-70 | Each conflict entry names a participant and exactly that participant's first overlapping interval. There are at most as many entries as participants. |
| `Scheduling.ConflictsAppend` | server/services/schedulingAlgorithm.js:50-70 | The conflicts of concatenated participant lists are the conflicts of the parts, in participant order. |
| `Scheduling.ConflictsSingle` | server/services/schedulingAlgorithm.js:54-63 | One participant contributes exactly one entry, their first overlapping interval, when unavailable, and no entry when free. |
| `Scheduling.ConflictsCover` | server/services/schedulingAlgorithm.js:50-63 | Every unavailable participant has an entry naming them and their first overlapping interval. |
| `Scheduling.AvailableCount` | server/services/schedulingAlgorithm.js:51-69 | The `availableParticipants` counter never exceeds the number of participants. |
| `Scheduling.AvailableCountIsFreeFlags` | server/services/schedulingAlgorithm.js:51-69 | The counter equals the number of participant positions whose participant has no overlapping busy interval. |
| `Scheduling.AvailableCountAllFree` | server/services/schedulingAlgorithm.js:51-69 | The counter reaches the number of participants iff no participant has an overlapping busy interval. |
| `Scheduling.ConflictAccounting` | server/services/schedulingAlgorithm.js:50-70 | Available participants plus conflict entries equals the number of participants, so the list has as many entries as there are unavailable participant positions. |
| `Scheduling.AvailabilityExtremes` | server/services/schedulingAlgorithm.js:50-70 | Everyone is available iff the conflicts list is empty. Nobody is available iff the list has as many entries as participants, and iff every participant has an overlapping busy interval. |
| `Scheduling.NoBusyTimesAllAvailable` | server/services/schedulingAlgorithm.js:50-70 | With no busy intervals every participant is available and no conflict is recorded. |
| `Scheduling.FindConflict` | server/services/schedulingAlgorithm.js:54-65 | The scan that breaks at the first overlap reports availability iff nothing overlaps. Otherwise it reports the first overlapping interval. |
| `Scheduling.CheckParticipants` | server/services/schedulingAlgorithm.js:45-70 | The participant loop computes `Conflicts` and `AvailableCount`, and `conflictingEventsCount` equals both the length of the conflicts list and `total - available`. |
| `Scheduling.AvailabilityPoints` | server/services/schedulingAlgorithm.js:73-77 | With `0 <= available <= total` the availability term lies in [0, 60]. It is 60 when everyone is available, zero participants included. With participants it is 0 iff nobody is available. |
| `Scheduling.TimeOfDayPoints` | server/services/schedulingAlgorithm.js:80-83 | The hour term is 5, 10 or 15: 15 exactly for hours 9 to 11, 10 exactly for hours 13 to 16. |
| `Scheduling.ConflictPoints` | server/services/schedulingAlgorithm.js:85-89 | For a non-negative conflict count c, the conflict term is `max(0, 15 - 5c)`. |
| `Scheduling.PriorityPoints` | server/services/schedulingAlgorithm.js:91-94 | The priority term is 0 iff no numeric priority is given or the priority is 1. It is non-negative for priorities of at least 1. |
| `Scheduling.RawScore` | server/services/schedulingAlgorithm.js:72-95 | For valid counts the unrounded score lies between 5 and 90, shifted by the priority term. |
| `Scheduling.Round` | server/services/schedulingAlgorithm.js:98 | `Math.round` gives the integer n with `n - 0.5 <= x < n + 0.5`. |
| `Scheduling.Clamp` | server/services/schedulingAlgorithm.js:98 | The clamp lands in [0, 100] and leaves values already in range unchanged. |
| `Scheduling.Score` | server/services/schedulingAlgorithm.js:72-98 | The score is an integer in [0, 100]. When the raw sum of the four terms lies in [-0.5, 100.5), the score is the integer nearest to it, halves rounded up. Below that range it is 0, above it 100. |
| `Scheduling.ScoreMonotoneInPriority` | server/services/schedulingAlgorithm.js:91-98 | Raising the priority, all else fixed, never lowers the score. |
| `Scheduling.ScoreAllAvailableNoPriority` | server/services/schedulingAlgorithm.js:72-98 | With everyone free and no numeric priority, the score is 75 plus the time-of-day band. This includes zero participants. |
| `Scheduling.Describe` | server/services/schedulingAlgorithm.js:100-107 | "All available" iff available == total, zero participants included. "None" iff available == 0 < total. Otherwise `total - available` people must reschedule. |
| `Scheduling.Evaluate` | server/services/schedulingAlgorithm.js:44-116 | A suggestion keeps the slot's times, has a score in [0, 100], and its conflict count plus the available count equals the number of participants. Its description is "all available" iff it has no conflicts. |
| `Scheduling.ScoreSlot` | server/services/schedulingAlgorithm.js:44-116 | One run of the map callback yields `Evaluate` of the slot. |
| `Scheduling.ScoreAll` | server/services/schedulingAlgorithm.js:40-117 | Scoring maps the slots one to one: the i-th suggestion has the i-th slot's start and end, and every score lies in 0 to 100. |
| `Scheduling.ScoreSlots` | server/services/schedulingAlgorithm.js:40-117 | Scoring the slots one after another, in order, yields `ScoreAll`: the i-th suggestion is the i-th slot evaluated at its own start hour. |
| `Scheduling.SortByScore` | server/services/schedulingAlgorithm.js:15 | The sort is a permutation: same multiset of suggestions. |
| `Scheduling.SortByScoreSorted` | server/services/schedulingAlgorithm.js:15 | The sort's result is non-increasing by score. |
| `Scheduling.SortByScoreStable` | server/services/schedulingAlgorithm.js:15 | For every score, the suggestions with that score keep their original relative order. |
| `Scheduling.SortInPlace` | server/services/schedulingAlgorithm.js:15 | The in-place insertion sort leaves the array equal to `SortByScore` of its old contents. |
| `Scheduling.Take` | server/services/schedulingAlgorithm.js:18 | `slice(0, n)` keeps the first `min(n, length)` elements. |
| `Scheduling.TopSuggestions` | server/services/schedulingAlgorithm.js:15-18 | Sorting and keeping five gives `min(5, n)` suggestions: sorted, drawn from the input, none outscored by a left-out one, ties in input order. |
| `Scheduling.OptimalTimes` | server/services/schedulingAlgorithm.js:4-19 | At most five suggestions. There are none exactly when no slot was generated. |
| `Scheduling.OptimalTimesRanking` | server/services/schedulingAlgorithm.js:4-19 | The result has length `min(5, number of generated slots)` and is sorted descending. It is a sub-multiset of the scored slots. No unselected slot outscores a selected one. Equal scores come in generation order. |
| `Scheduling.CalculateOptimalTime` | server/services/schedulingAlgorithm.js:4-19 | The pipeline returns `OptimalTimes`: empty when no slot was generated, otherwise at most five, sorted by descending score. |
| `UserModel.FindConnection` | server/models/user.js:306-308 | `find` returns None iff no entry has the key. Otherwise it returns the first entry with the key. |
| `UserModel.Refreshed` | server/models/user.js:310-315 | The refreshed entry keeps its key and connection time, carries the new tokens and is active. |
| `UserModel.NewConnection` | server/models/user.js:316-326 | The pushed entry has the given key, tokens and connection time `now`, and is active. |
| `UserModel.AddConnection` | server/models/user.js:305-329 | The list keeps its length iff an entry with the key exists. Otherwise it grows by one and keeps the old entries as its prefix. |
| `UserModel.AddConnectionExisting` | server/models/user.js:310-315 | Existing key: the first matching entry gets the new tokens and `isActive = true`, and keeps its key and `connectedAt`. The length and every other entry are unchanged. |
| `UserModel.AddConnectionNew` | server/models/user.js:316-326 | New key: one active entry with the given key, tokens and connection time is appended. The earlier entries are unchanged. |
| `UserModel.AddConnectionLeavesActiveEntry` | server/models/user.js:305-329 | Afterwards an active entry with the given (provider, accountId) exists. |
| `UserModel.AddConnectionKeepsKeysUnique` | server/models/user.js:305-329 | If keys were unique before the upsert, they are unique after it. |
| `UserModel.AddConnectionTwice` | server/models/user.js:305-329 | Connecting the same account twice equals one connection with the second tokens and the first connection time. |
| `UserModel.CountActive` | server/models/user.js:194-196 | The count is at most the length. It equals the length iff all entries are active, and it is 0 iff none is. |
| `UserModel.CountActiveIsActiveFlags` | server/models/user.js:194-196 | The count equals the number of entries whose `isActive` is true. |
| `UserModel.ActiveCalendarConnections` | server/models/user.js:194-196 | The virtual gives 0 when the list is absent. Otherwise it gives the number of entries whose `isActive` is true, which is at most the list length. |
| `UserModel.AddConnectionActiveCount` | server/models/user.js:305-329 | The upsert raises the active count by one, except when it refreshes an already-active entry. |
| `UserModel.IsJsWhitespace` | server/models/user.js:190 | The characters `trim` removes are the ECMAScript white space and line terminators. No ASCII letter or digit is among them. |
| `UserModel.TrimStart` | server/models/user.js:190 | The result is a suffix of the input, the dropped part is whitespace, and it does not start with whitespace. |
| `UserModel.TrimEnd` | server/models/user.js:190 | The result is a prefix of the input, the dropped part is whitespace, and it does not end with whitespace. |
| `UserModel.Trim` | server/models/user.js:190 | The trimmed string neither starts nor ends with JavaScript whitespace. |
| `UserModel.TrimIsMiddle` | server/models/user.js:190 | The trimmed string is one contiguous piece of the input, with only whitespace removed on both sides. |
| `UserModel.TrimIdempotent` | server/models/user.js:190 | Trimming twice is the same as trimming once. |
| `UserModel.FullNameOfTrimmedNames` | server/models/user.js:189-191 | For non-empty, already trimmed names, `fullName` is first name, one space, last name. |
| `UserModel.User.FullName` | server/models/user.js:189-191 | `fullName` has no surrounding whitespace. For non-empty trimmed names it is `firstName + " " + lastName`. |
| `UserModel.User.constructor` | server/models/user.js:114-151 | A new record starts with `loginCount` 0, no last login and an empty connection list. |
| `UserModel.User.IncrementLoginCount` | server/models/user.js:298-302 | `loginCount` goes up by exactly one and `lastLoginAt` becomes now. The frame allows no other field to change. |
| `UserModel.User.AddCalendarConnection` | server/models/user.js:305-329 | The list becomes `AddConnection` of the old list, and an active entry with the key exists. Unique keys stay unique. The frame allows no other field to change. |

## Left out

- Persistence: `save()` (server/models/user.js:301, :328) and the promise it returns. The database query that fetches busy intervals is also left out; the caller passes the intervals in.
- ISO-8601 conversion of the suggestion times (server/services/schedulingAlgorithm.js:110-111). Suggestions carry integer timestamps.
- Local-time-zone hour extraction (`getHours`). The model takes the hour from the parameter `hourOf`.
- Floating point: the score is computed over exact reals. An IEEE rounding error just below a `.5` boundary could round differently in the source. A priority of `Infinity` has no counterpart; it would clamp to 100.
- A missing `duration` (the field is optional in server/models/meetingProposal.js:14) makes `duration * 60 * 1000` NaN, so the loop test fails and no slot is generated. The model has no NaN: `duration` is always an integer.
- `calculateOptimalTime` is `async` and returns a promise of the list. The model returns the list.
- Durations are integer minutes. A fractional `duration` and invalid `Date` values (NaN timestamps) are not modelled.
- Participant ids are compared as strings. `toString()` on ObjectIds is taken to be the identity on their string form.
- The found calendar subdocument is updated through the array, not as a separately aliased object. Mongoose subdocument ids and schema validation (the `provider` enum) are not modelled. Token fields that are `undefined` are not distinguished from strings or numbers: the model gives `accessToken` and `refreshToken` a string and `expiresAt` an integer.
- `UserModel.ActiveCalendarConnections`: the absent-list case is modelled in the function, but the class always holds a list, as mongoose array paths default to `[]`.
- `Scheduling.OverlapsIffSharedInstant`: stated only for non-empty slot and busy interval. For degenerate intervals the source's test is still what `Overlaps` models, but it no longer means a shared instant.
- Authentication, tokens, bcrypt and crypto (server/models/user.js:236-295), the `accountAge` virtual (it reads the wall clock), the static finders, the controllers, routes and client code.
