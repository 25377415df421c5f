# Polester scheduling and moderation core, in Dafny

Polester takes advertisement submissions for a small set of physical display poles. An
administrator approves or deletes them and pins one of them for the display page. The
repository holds this logic in two variants, and this project models both:

- **app.js, the local store.** The module-level `db` holds the `submissions` list and the
  single `currentDisplayId` pointer. Here it is the class `LocalStore.Db`. Its methods are the
  submit, approve, delete and set-display handlers. Each method's new state is tied to a pure
  function (`Admit`, `ApproveFirst`, `RemoveAt`/`ClearPointer`, `Toggle`), and the lemmas are
  proved about those functions. The admin table's order is `AdminOrder`, and the display page's
  lookup is `Resolve`. The placement form's half-hour choices are in module `TimeSlots`:
  `GenerateHalfHourOptions` keeps the source's `for` loop, and `DefaultSelection` is the
  preselected start/end.
- **src/composables/useAdStore.js, the remote-backed list.** The shared `advertisements`,
  `loading` and `error` state is the class `AdStore.Store`. Each action is a method that takes
  the backend's answer (`ApiResponse`: success with data, `success: false` with a message, or a
  thrown error) as a parameter and applies the local effect. The `activeAdvertisements` and
  `sortedAdvertisements` projections are pure functions.

Shared pieces:
- `Seqs`: `find`/`findIndex`, `filter`, `splice(i, 1)`, a subsequence predicate and id uniqueness.
- `Sorting`: a stable insertion sort by a (group, tie-breaker) key. Both comparators have this
  shape: a status test, then `a.id - b.id` (admin) or `b.id - a.id` (ads).

All times are integer minutes. Today's midnight and the current time are parameters. For
`RoundUpToSlot` and `DefaultSelection`, the current time is the millisecond clock rounded UP
to the whole minute. With that rounding, rounding up again to a half hour gives the same
boundary as the source's `Math.ceil` on milliseconds. Saving to
browser storage is a no-op. Whatever `loadDB` would load is the `Db` constructor's argument, and
`Seed()` is the default.

## Behaviour of the code worth noting

- The ad activity test is `current_impressions < impression_count`. When the cap is missing,
  this comparison is false, so the ad is never active. In the model the cap is always an integer.
- Approving or deleting an unknown id does nothing, and so does a cancelled delete. No
  not-found error is raised.
- Set-display checks neither that the record exists nor that it is approved.
- The pole count is not validated; it is stored as the form gave it.

## Model

| member | source | states |
|---|---|---|
| `LocalStore.Seed` | app.js:3-10 | the built-in store contents (ids 1 pending, 2 approved) have unique ids |
| `LocalStore.MaxId` | app.js:206 | `Math.max` over the ids bounds every id and is attained by one of them |
| `LocalStore.NextId` | app.js:206 | a new id is 1 in an empty store, otherwise max+1: larger than every existing id |
| `LocalStore.AppendNextKeepsUniqueIds` | app.js:205-215 | appending a record with the next id keeps all ids distinct |
| `LocalStore.Truncate` | app.js:208 | a description up to 50 characters is kept as is; a longer one becomes its first 50 characters plus `...`; the result has at most 53 characters |
| `LocalStore.TruncateIdempotent` | app.js:208 | truncating a stored description again changes nothing |
| `LocalStore.Admit` | app.js:184-213 | rejected exactly when a time is missing, start >= end, or there is no image (the three alerts missing time, end not after start and missing image, in the source's order); otherwise a pending record with the next id, the truncated description, the window and the image |
| `LocalStore.IndexOf` | app.js:292 | the first position whose id matches, or none exactly when no record has the id |
| `LocalStore.ApproveFirst` | app.js:292-296 | only statuses change; the first record with the id becomes approved; every other record is unchanged |
| `LocalStore.ApproveIdempotent` | app.js:294-295 | approving twice equals approving once |
| `LocalStore.ApproveMonotone` | app.js:294-295 | an approved record never goes back to pending, and approving an unknown id changes nothing |
| `LocalStore.Toggle` | app.js:328-333 | the pointer becomes empty exactly when it held the id; otherwise it becomes the id |
| `LocalStore.ToggleTwice` | app.js:328-333 | two clicks with the same id restore an empty pointer, or keep the pointer that already held that id |
| `LocalStore.ClearPointer` | app.js:317 | after a delete the pointer is empty or still names another id |
| `LocalStore.Resolve` | app.js:344 | the display shows the first record whose id equals the pointer, and nothing when the pointer is empty or matches no record |
| `LocalStore.IndexOfAfterRemove` | app.js:312-315 | after a splice, the first record with another id is at the same index, or one lower |
| `LocalStore.DeleteKeepsOtherDisplay` | app.js:312-317 | a delete plus pointer clear leaves the displayed record unchanged, unless the pointer named the deleted id; then nothing is shown |
| `LocalStore.AdminOrder` | app.js:235-239 | the admin order is a permutation; every pending record precedes every approved one; ids ascend within a status |
| `LocalStore.AdminOrderStrict` | app.js:235-239 | with unique ids the admin order keeps them unique and ascends strictly within a status |
| `LocalStore.SeedAdminOrder` | app.js:4-7 | the seeded store lists 1 then 2, and still 1 then 2 after record 1 is approved |
| `LocalStore.Db.constructor` | app.js:3-10 | the store starts from the given submissions and pointer, by default the seed records and no pointer |
| `LocalStore.Db.Submit` | app.js:184-216 | returns `Admit` of the old list; on success only that record is appended at the end; on failure nothing changes; the pointer is untouched; unique ids stay unique |
| `LocalStore.Db.Approve` | app.js:291-296 | the list becomes `ApproveFirst` of the old list; the pointer is untouched |
| `LocalStore.Db.Delete` | app.js:311-318 | removes only when the admin confirms and the id exists; then the first such record is spliced out and a pointer at the id is cleared in the same step; otherwise nothing changes; with unique ids no record with the id remains |
| `LocalStore.Db.SetDisplay` | app.js:327-334 | the pointer is toggled with no existence or approval check; submissions are untouched |
| `TimeSlots.GenerateHalfHourOptions` | app.js:95-110 | `days*48` slots (days defaults to 7; none for days <= 0); slot i is the day start plus 30·i minutes; strictly increasing |
| `TimeSlots.RoundUpToSlot` | app.js:128-130 | the current time rounded up to a half-hour boundary, less than 30 minutes later |
| `TimeSlots.DefaultSelection` | app.js:131-136 | start is the first slot at or after the rounded time; end is `min(start+1, len-1)`; no selection exactly when every slot is earlier |
| `TimeSlots.DefaultStartIsNextSlot` | app.js:124-136 | on a grid from a slot boundary that reaches the rounded time, the default start is exactly the slot beginning at the rounded time |
| `Seqs.FirstIndex` | app.js:312 | `findIndex`: the first position satisfying the test, or none when no element does |
| `Seqs.Filter` | src/composables/useAdStore.js:14 | `filter` keeps exactly the passing elements, each as many times as it occurs, as an order-preserving subsequence |
| `Seqs.FilterKeepsAll` | src/composables/useAdStore.js:120 | a filter that every element passes returns the list unchanged |
| `Seqs.RemoveAt` | app.js:315 | `splice(i, 1)` drops exactly position i; elements before it stay, later ones shift down by one; the multiset loses one copy |
| `Sorting.SortByKey` | app.js:235 | the copy sorted by the comparator is a permutation and is ordered by the key |
| `AdStore.ErrorText` | src/composables/useAdStore.js:42-44 | the stored error is the response's message, or the action's fallback text when the message is empty; for a thrown error it is the error's own message |
| `AdStore.ActiveAdvertisements` | src/composables/useAdStore.js:12-20 | an ad is listed exactly when it is active, `start <= now <= end` and below its impression cap, as many times as it occurs in the list; the listing is a subsequence in list order |
| `AdStore.InactiveNotListed` | src/composables/useAdStore.js:15-18 | an ad that is paused or completed, outside its window, or at its cap is never listed |
| `AdStore.AllActiveListed` | src/composables/useAdStore.js:14-19 | when every ad is live, the projection is the whole list |
| `AdStore.SortedAdvertisements` | src/composables/useAdStore.js:22-30 | a permutation of the list; active ads come before all others; ids descend within each group |
| `AdStore.SortedAdvertisementsStrict` | src/composables/useAdStore.js:22-30 | with unique ids the descent within each group is strict |
| `AdStore.IndexOf` | src/composables/useAdStore.js:97 | the first position whose id matches, or none exactly when no ad has the id |
| `AdStore.ReplaceFirst` | src/composables/useAdStore.js:97-100 | the length is unchanged; the first ad with the id becomes the returned data; every other entry stays |
| `AdStore.RemoveById` | src/composables/useAdStore.js:120 | no ad with the id remains; every other ad remains as many times as before, in order |
| `AdStore.RemoveAbsentId` | src/composables/useAdStore.js:120 | removing an id no ad carries leaves the list as it was |
| `AdStore.Store.constructor` | src/composables/useAdStore.js:5-7 | the state starts as an empty list, not loading, no error |
| `AdStore.Store.FetchAdvertisements` | src/composables/useAdStore.js:33-50 | on success the list becomes exactly the returned data and the error is cleared; on failure the list is unchanged and the error is set; loading ends false |
| `AdStore.Store.FetchActiveAdvertisements` | src/composables/useAdStore.js:52-68 | returns the server's active set or the error; the list is never touched; loading ends false |
| `AdStore.Store.CreateAdvertisement` | src/composables/useAdStore.js:70-88 | on success the list is refetched and the create reports success even when that refetch fails (then the refetch's error is kept); on failure the list is unchanged and the error is set; loading ends false |
| `AdStore.Store.UpdateAdvertisement` | src/composables/useAdStore.js:90-111 | on success the list becomes `ReplaceFirst` with the returned record; on failure it is unchanged and the error is set; loading ends false |
| `AdStore.Store.DeleteAdvertisement` | src/composables/useAdStore.js:113-131 | on success the list becomes `RemoveById`; on failure it is unchanged and the error is set; loading ends false |
| `AdStore.Store.IncrementImpression` | src/composables/useAdStore.js:133-149 | on success the list becomes `ReplaceFirst` with the returned record; `loading` and `error` are never touched |

## Left out

- DOM rendering, event-listener wiring, the navigation menu, the FileReader preview and the timed fake AI generation (app.js:47-92, 139-178, 241-285, 345-413). These are UI and timers.
- `loadDB`/`saveDB` (app.js:13-34): browser storage and JSON. Saving is a no-op that never fails, and the loaded state is the `Db` constructor's argument.
- Date and ISO-string handling: `toISOString`, timezones, `new Date(string)`. Times are integer minutes. The slot values and labels are ISO strings in the source, and they are compared as strings of one fixed format; that comparison equals comparing the times.
- Submit's `new Date(timeStart) >= new Date(timeEnd)` (app.js:193) reads the UTC slot strings, which carry no `Z`, as local time. Across a daylight-saving change it can reject a window whose minutes are in order. The model compares the minutes.
- `AdStore.ActiveAdvertisements`: `now` is a whole minute, while the source compares milliseconds. No rounding makes the closed window exact at both ends. If `now` is the clock rounded up, an ad counts as started up to a minute before its start instant. If it is rounded down, an ad counts as still running up to a minute after its end instant.
- `activeAdvertisements` calls `new Date()` (src/composables/useAdStore.js:13) inside a Vue `computed`, which keeps that time until the list changes. The model takes `now` as an argument on every call.
- `TimeSlots.GenerateHalfHourOptions`: the slot's display label (`YYYY-MM-DD HH:mm`) is not produced; a slot is its start minute.
- `LocalStore.Truncate`: JavaScript's `substring` and `length` count UTF-16 code units, while a Dafny `char` is a Unicode scalar value. Text outside the Basic Multilingual Plane is therefore cut at a different place.
- `LocalStore.Db.Submit`: `parseInt` of the pole count can give `NaN`. The model takes the count as an integer and, like the code, does not check it.
- The submission's `time` display string (`start to end`) is stored as a `Window` of its two minutes. The seed records' day-only dates are read as UTC midnights.
- `Sorting.SortByKey`: the proof shows sorted and permuted, but not stable. Stability matters only for records with equal keys, which means duplicate ids.
- The `status`/`limit`/`offset` parameters of `fetchAdvertisements` are passed to the backend unread. Their effect is inside the answer parameter.
- Logging (`console.warn`, `console.error`) and the returned `{ success, data }` objects' JavaScript shape, beyond `ActionResult`.
- The async and reactive machinery (Vue `ref`/`computed`, `await`). Each action is one sequential step, and the projections are recomputed from their arguments on each call.
- src/services/api.js, src/composables/useAuth.js and src/router/index.js are not part of this model. They are an HTTP wrapper, a session-storage password gate and static route configuration.
