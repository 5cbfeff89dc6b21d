# Management shorts: local-fallback statistics

This project models the local fallback of the management-shorts preference
service (`src/services/managementShortsService.ts`). The UI shows a stack of
swipeable "management insight" cards. Each swipe is a `UserPreference`, which
holds a card id, an action (`like` or `dislike`) and a millisecond timestamp.
If the remote preferences API cannot be reached, the service falls back to a
list stored in the browser:

- `savePreferenceLocally` appends one preference to the stored list;
- `getLocalStats` derives a `UserStats` record from that list: total, liked
  and disliked counts, and the daily streak;
- `calculateStreak` maps each preference to its calendar day and sorts the
  days newest first. It then walks adjacent pairs from the newest. The streak
  starts at 1, gains 1 for each pair exactly one day apart, and stops at the
  first pair that is not.

The model has three modules:

- `Preferences` (preferences.dfy): the `UserPreference` and `UserStats`
  records. It also holds the calendar-day abstraction `DayOf`: the floor of
  (timestamp + zone offset) / 86 400 000, for a time zone at a fixed offset
  from UTC. `DaysOf` maps a list of preferences to its days.
- `StreakCalculator` (streak.dfy): the newest-first sort (`SortDescending`)
  and the specification of the walk (`ConsecutiveRun`, `StreakOfDays`,
  `Streak`). `CalculateStreak` is the imperative walk, a `for` loop that
  updates `streak` and `currentDate` and leaves with `break`, proved equal to
  `Streak`. The lemmas say what the streak means and what it depends on.
- `LocalStats` (local_stats.dfy): the `.filter(...).length` counts
  (`Filter`, `Count`). It also holds the class `PreferenceStore`, whose field
  `preferences` is the stored list, and its methods `SavePreferenceLocally`
  and `GetLocalStats`.

The card stack labels the value as a count of calendar days: "{streak} Day
Streak" in its badge (src/components/ManagementShorts/ManagementShorts.tsx:156)
and "Current Streak: {streak} days" when the stack is empty (line 187).
`calculateStreak` does not merge same-day entries, though (lines 92-107 of
the service). It maps every preference to a day, so two entries on the same
day sit next to each other after the sort, are zero days apart, and end the
walk. The model follows the code. Two preferences on the latest day therefore
give a streak of 1 (`SameLatestDayGivesOne`). Days D, D-1, D-1, D-2 give 2,
not 3 (`RepeatedDayEndsStreak`). For comparison, the model also defines the
streak a walk over merged days would give (`DistinctDays`). The reported
streak never exceeds it, and the two are equal when the sorted days hold no
repeated day (`StreakAtMostDistinctStreak`).

## Model

| member | source | states |
|---|---|---|
| `Preferences.DayOf` | src/services/managementShortsService.ts:93-94 | The day number of a timestamp is the day whose local midnight is the last one at or before it: `day * 86400000 <= ts + offset < (day + 1) * 86400000`. |
| `Preferences.DaysOf` | src/services/managementShortsService.ts:92-93 | One day per preference, in list order: same length, and entry k is the day of preference k. |
| `Preferences.DaysOfPermutation` | src/services/managementShortsService.ts:92-93 | Two lists holding the same preferences in any order have the same multiset of days. |
| `StreakCalculator.SortDescending` | src/services/managementShortsService.ts:94 | The sorted days are newest first, have the same length, and are a permutation of the input days. |
| `StreakCalculator.DescendingUnique` | src/services/managementShortsService.ts:94 | Two newest-first lists with the same multiset of days are equal, so the sorted list depends only on which days occur and how often. |
| `StreakCalculator.ConsecutiveRun` | src/services/managementShortsService.ts:96-109 | For a non-empty list the walk yields at least 1 and at most the number of days. |
| `StreakCalculator.StreakOfDays` | src/services/managementShortsService.ts:90-111 | The streak of a day list is 0 exactly when the list is empty, and never exceeds its length. |
| `StreakCalculator.Streak` | src/services/managementShortsService.ts:89-112 | The streak of a preference list is 0 exactly when the list is empty, and at most the number of preferences. |
| `StreakCalculator.ConsecutiveRunIs` | src/services/managementShortsService.ts:99-109 | The run is k days long if and only if the first k days are consecutive (each exactly one day after the next) and the walk stops there: the list ends or the next pair is not one day apart. |
| `StreakCalculator.ConsecutiveRunIgnoresRest` | src/services/managementShortsService.ts:103-108 | Once the walk has stopped at a pair, replacing every day after that pair leaves the run unchanged: later days are never looked at. |
| `StreakCalculator.StreakOfArrangement` | src/services/managementShortsService.ts:92-94 | The streak of a preference list equals the streak of any newest-first arrangement of its days. |
| `StreakCalculator.StreakDependsOnlyOnDays` | src/services/managementShortsService.ts:92-94 | Two preference lists with the same multiset of days have the same streak. |
| `StreakCalculator.StreakIgnoresOrder` | src/services/managementShortsService.ts:92-94 | Storing the same preferences in another order does not change the streak. |
| `StreakCalculator.ConsecutiveDaysStreak` | src/services/managementShortsService.ts:99-109 | One preference on each of n consecutive days gives a streak of n. |
| `StreakCalculator.SameLatestDayGivesOne` | src/services/managementShortsService.ts:92-107 | Two preferences on the latest day give a streak of 1, whatever the earlier days: no merging, so the difference is 0 and the walk breaks. |
| `StreakCalculator.RepeatedDayEndsStreak` | src/services/managementShortsService.ts:92-108 | Days D, D-1, D-1, D-2 give a streak of 2: the repeated D-1 ends the walk. |
| `StreakCalculator.GapStopsStreak` | src/services/managementShortsService.ts:99-109 | Days D, D-1, D-2, D-4 give a streak of 3: the missing D-3 ends the walk before D-4. |
| `StreakCalculator.DistinctDays` | src/services/managementShortsService.ts:92-109 | Comparison definition, not code of the service: the day list a walk would see if same-day entries were merged. It holds exactly the days of the input, is no longer, starts with the same newest day, and, when the input is newest first, has no two adjacent days equal. |
| `StreakCalculator.RunAtMostDistinctRun` | src/services/managementShortsService.ts:99-109 | Same-day entries can only shorten the walk: the run over the days as stored is at most the run over the merged days. |
| `StreakCalculator.NoRepeatedDayIsDistinct` | src/services/managementShortsService.ts:92-94 | When no two adjacent days are equal, merging changes nothing. |
| `StreakCalculator.StreakAtMostDistinctStreak` | src/services/managementShortsService.ts:89-112 | The reported streak is at most the merged-days streak, and equal to it when the sorted days hold no repeated day. |
| `StreakCalculator.CalculateStreak` | src/services/managementShortsService.ts:89-112 | The loop with its early `break` returns exactly `Streak` of its input: 0 exactly for no preferences, and at most their number. |
| `LocalStats.Filter` | src/services/managementShortsService.ts:77-78 | The filtered list is no longer than the stored one, and every entry in it carries the requested action. It is as long as the stored list if and only if every stored entry carries the action. |
| `LocalStats.Count` | src/services/managementShortsService.ts:77-78 | The count of an action never exceeds the number of stored entries, and equals it if and only if every stored entry carries that action. |
| `LocalStats.FilterKeepsExactly` | src/services/managementShortsService.ts:77-78 | Filtering keeps each entry with the action exactly as often as it is stored, and no entry with any other action. |
| `LocalStats.FilterAppend` | src/services/managementShortsService.ts:69-78 | Filtering a list with one more entry at the end gives the earlier result, plus the new entry exactly when it carries the action. |
| `LocalStats.CountAppend` | src/services/managementShortsService.ts:69-83 | Saving one preference raises the count of its own action by 1 and leaves every other action's count unchanged. |
| `LocalStats.LikedPlusDisliked` | src/services/managementShortsService.ts:77-83 | Liked plus disliked never exceeds the total. They equal it if and only if every entry's action is `like` or `dislike`, the two values the `UserPreference` type (line 5) allows. |
| `LocalStats.PreferenceStore.constructor` | src/services/managementShortsService.ts:70 | A storage entry that is absent reads as the empty list. |
| `LocalStats.PreferenceStore.SavePreferenceLocally` | src/services/managementShortsService.ts:69-73 | The stored list becomes the old list with the new preference appended: one longer, the new preference last, and the earlier entries unchanged. |
| `LocalStats.PreferenceStore.GetLocalStats` | src/services/managementShortsService.ts:75-87 | The result's streak is `Streak` of the stored list and its total is the list's length. Liked and disliked are the `like` and `dislike` counts. Liked + disliked == total exactly when every action is one of the two. The date is the given `now`. |

## Left out

- The remote API: `saveUserPreference` and `getUserStats` call `fetch` and fall back to the local list when it throws (lines 20-44). That is network I/O, so the model starts from the stored list.
- Browser storage and JSON: `localStorage.getItem`/`setItem`, `JSON.parse` and `JSON.stringify` (lines 70-72, 76). The stored value is the class field `preferences`. Malformed JSON, which makes `JSON.parse` throw, is not modelled. Neither are entries missing a field.
- Date machinery: `new Date(...)`, `toDateString`, re-parsing that string, and `Math.floor` over millisecond differences (lines 93-94, 101). The model uses a zone at a fixed offset from UTC, so local midnights are exactly 86 400 000 ms apart and the floored difference equals the difference of day numbers. Daylight-saving transitions are not modelled. Across one of them, a 23-hour gap between midnights floors to 0 days in the source.
- `DayOf`: JavaScript timestamps are doubles limited to ±8.64e15 ms. The model uses unbounded integers.
- `lastInteractionDate`: the source reads the clock with `new Date().toISOString()` (line 85). The model passes the time in as the parameter `now`.
- `Array.prototype.sort` (line 94) sorts the mapped array in place with the engine's own algorithm. It is modelled as the pure insertion sort `SortDescending`. Any sort has the same result here, because a multiset of days has only one newest-first order (`DescendingUnique`).
- `getLocalStats` computes its counts as pure expressions, but it calls `calculateStreak`. `CalculateStreak` is a method (a loop with `break`), so `GetLocalStats` is a method too.
- `shareCard` (lines 46-67): card lookup, `navigator.share` and clipboard calls, which are browser I/O.
- The module-level singleton and the `process.env` base URL (lines 18, 115): configuration only.
- `src/components/ManagementShorts/ManagementShorts.tsx`, `src/components/ManagementShorts/Card.tsx` and `src/index.tsx`: React rendering, styling, drag gestures over floating-point offsets (including the ±100 swipe threshold), and app bootstrap.
