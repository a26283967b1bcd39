# Watch queue for a video site: a Dafny model

This project models the core of a browser content script. The script adds a "watch queue" panel to a video site.

**The queue state.** The queue is the script's global state: an ordered list of video entries (`id`, `url`, `title`, `thumbnail`, `duration`, `subchannel`) and a current index, which is -1 when no entry is current.

**The handlers.** Every handler that changes the queue writes it through to the extension's local storage, under the keys `fp_queue` and `fp_queue_index`. The handlers are:
- add with de-duplication by id;
- remove, which re-clamps the current index;
- clear;
- drag-and-drop reorder;
- row click;
- next and previous;
- the player's `ended` handler.

**Page loads.** Each page load reloads the queue from storage and runs the auto-add detector. On a `/post/<id>` page the detector either makes the already queued video current, or silently appends the page's video as current.

**Module layout.** The Dafny follows the script's structure:
- `Queue` holds the list as a value (`QueueState`) and the list operations, with their lemmas.
- `Storage` holds the two storage keys.
- `Navigation` holds the next, previous and ended decisions.
- `AutoAdd` holds the detector.
- `Views` holds the badge, the meta line and the title and duration text tests.
- `Text` holds the JavaScript string built-ins these rely on (`trim`, `\s`, `indexOf`, `replace`, number formatting).
- `Controller.WatchQueue` is the global state as a class. Its fields are `queue`, `currentIndex`, `isOpen` and `storage`. Its methods update those fields in place, and each method is proved against the `Queue`, `Storage`, `Navigation` and `AutoAdd` functions. Navigation and notices are returned as `Effect` values (`Navigate(url)`, `Notify(message)`).

## Model

| member | source | states |
|---|---|---|
| Queue.IndexOf | src/content.js:53 | `findIndex` by id: the first position holding the id, or -1 exactly when no entry has it |
| Queue.FindIndex | src/content.js:274 | the linear search returns exactly `IndexOf`: the first matching position, or -1 |
| Queue.WithEntry | src/content.js:52-67 | the list after an add keeps the old list as a prefix and grows by at most one; the id is queued afterwards; an entry is appended only when its id was absent, and it is the video itself |
| Queue.AddNeverDuplicates | src/content.js:52-67 | adding keeps ids unique; a known id leaves the list exactly unchanged; a new id appends the video at position `|queue|`; the old list stays a prefix |
| Queue.RemoveAt | src/content.js:74-82 | `splice(i, 1)`: one entry shorter, entries before `i` kept, entries after `i` shifted down by one, in order |
| Queue.RemoveKeepsIndexInBounds | src/content.js:77-82 | after a removal the index is in [-1, |queue|) whenever it was at least -1; an emptied queue always has index -1; an index of -1 stays -1; unique ids are kept |
| Queue.RemoveTracksCurrent | src/content.js:77-79 | removing another entry keeps the same entry current; removing the current entry makes the previous one current, or the new first one when it was first |
| Queue.Moved | src/content.js:209-210 | the reorder keeps the length and puts the moved entry at position `to` |
| Queue.MovedAt | src/content.js:209-210 | every position after the reorder holds the entry from its source position |
| Queue.MoveAdjust | src/content.js:212-218 | the adjusted index equals the drop target exactly when the dragged entry was current; -1 stays -1; any other index moves by at most one |
| Queue.MovedIsPermutation | src/content.js:209-210 | the reorder is a permutation: the multiset of entries is unchanged |
| Queue.MoveKeepsUnique | src/content.js:209-210 | the reorder keeps ids unique |
| Queue.MoveTracksCurrent | src/content.js:212-218 | the three-branch index rule designates, after the move, the entry that was current before; -1 stays -1 |
| Queue.MoveToSelfIsIdentity | src/content.js:208 | dropping a row on itself would change neither the list nor the index |
| Queue.MoveEntry | src/content.js:208-219 | the reorder of the whole state keeps the length, puts the dragged entry at the target, makes the target current exactly when the dragged entry was current, and changes nothing when `from == to` |
| Queue.MoveKeepsValid | src/content.js:208-219 | a reorder of a valid state is valid, holds the same entries and keeps the same current entry |
| Storage.Saved | src/content.js:27-30 | saving writes exactly the two keys, leaves every other key alone, and loading then returns the saved list and index |
| Storage.Loaded | src/content.js:12-14 | a stored list and a stored index are returned as stored (0 included); a missing list loads as empty, a missing index as -1 |
| Storage.LoadDefaults | src/content.js:13-14 | missing keys load as the empty list and -1; a stored index 0 is kept by `??` |
| Storage.SaveOverwrites | src/content.js:25-30 | a later save replaces an earlier one; saving a valid state leaves storage that loads valid |
| Navigation.NextStep | src/content.js:471-485 | `playNext` either goes to an index inside the queue or refuses |
| Navigation.PreviousStep | src/content.js:487-501 | `playPrevious` either goes to an index inside the queue or refuses |
| Navigation.EndedStep | src/content.js:516-528 | the ended decision either goes to an index inside the queue or refuses |
| Navigation.BoundariesOfNavigation | src/content.js:471-501 | on a valid index: "Queue is empty" on an empty queue; "End of queue" exactly at the last entry; "Beginning of queue" exactly at or before the first entry; otherwise a move by one |
| Navigation.NextPreviousInverse | src/content.js:477-497 | previous undoes next, and next undoes previous |
| Navigation.EndedAgreesWithNext | src/content.js:516-527 | the ended handler advances exactly where `playNext` would; in every other case (an empty queue included) it reports "Queue complete!" |
| Navigation.NextWalksForward | src/content.js:477-481 | pressing next n times from a valid index lands on `current + n`, or on the last entry |
| Views.Badge | src/content.js:178-180 | the first `/` of the badge separates the rendered 1-based position (or `-` when none is current) from the rendered count |
| Views.BadgeReadsBack | src/content.js:178-180 | the text before the badge's first `/` reads back as the 1-based current position (or is `-`), the text after it as the entry count |
| Views.MetaLine | src/content.js:224-232 | the joined meta line is `subchannel • duration`, one of the two alone, or empty |
| Views.LeadingDigits | src/content.js:369 | the greedy `\d+` match at the start is the maximal run of leading ASCII digits |
| Views.IsClock | src/content.js:369 | text passing `^\d+:\d+(:\d+)?$` has at least three characters, all digits or colons, and starts and ends with a digit |
| Views.ClockLengthChars | src/content.js:369 | the greedy duration match at the start of a string is made of digits and colons and starts and ends with a digit |
| Views.IsBareClock | src/content.js:342 | text passing `^\d+:\d+$` has exactly one colon, not at either end, and digits everywhere else |
| Views.BareClockIsTwoPart | src/content.js:342 | the `^\d+:\d+$` test accepts exactly `digits:digits` |
| Views.ClockIsTwoOrThreePart | src/content.js:369 | the `^\d+:\d+(:\d+)?$` test accepts exactly `digits:digits` and `digits:digits:digits` |
| Views.ClockHasShape | src/content.js:369 | a string passing the duration test has one of the two shapes |
| Views.TwoPartIsClock | src/content.js:369 | `digits:digits` passes the duration test |
| Views.ThreePartIsClock | src/content.js:369 | `digits:digits:digits` passes the duration test |
| Views.BareClockIsClock | src/content.js:342 | everything the title filter rejects as a clock is a duration in the sense of the duration test |
| Views.ClockPrefixIsClock | src/content.js:373-375 | the captured group of the labelled pattern is itself a full duration |
| Views.SkipSpaces | src/content.js:373 | `\s*` consumes the maximal run of whitespace |
| Views.LabelledClockFrom | src/content.js:373-375 | the search for `Duration:\s*(\d+:\d+(:\d+)?)` finds nothing exactly when no position matches; otherwise it returns the captured group of the leftmost match, which is a valid duration |
| Views.DurationText | src/content.js:366-376 | the extracted duration is empty or valid; trimmed text that is already a duration is kept; otherwise it is the group of the first labelled match, and empty exactly when there is none; a missing element gives empty |
| Views.TitleTest | src/content.js:340-343 | link text is taken as a title exactly when it is longer than one character, has no `digits:digits` shape, and does not start with `Duration:` |
| Views.ThreePartPassesTitleTest | src/content.js:342 | every `digits:digits:digits` text, such as `1:23:45`, passes the title test although the duration test accepts it |
| Views.IntendedTitleTest | src/content.js:340-342 | the corrected title test accepts text exactly when it is longer than one character, has neither duration shape, and is unlabelled |
| Views.IntendedTitleTestRejectsDurations | src/content.js:340-342 | the corrected test accepts no duration, and differs from the written test exactly on the three-group durations |
| Text.IndexOfFrom | src/content.js:271 | the separator search returns the first occurrence at or after the start position, or -1 when there is none |
| Text.RemoveFirst | src/content.js:301 | `replace` with a string pattern: unchanged when the pattern is absent; otherwise the input is the result with the pattern put back at its first occurrence |
| Text.RemoveFirstOfPrefixed | src/content.js:301 | removing the pattern from a string that starts with it drops exactly that prefix |
| Text.TrimStart | src/content.js:301 | the result is a suffix; everything dropped is whitespace; it does not start with whitespace |
| Text.TrimEnd | src/content.js:301 | the result is a prefix; everything dropped is whitespace; it does not end with whitespace |
| Text.Trim | src/content.js:367 | neither end of the result is whitespace; a string without edge whitespace is unchanged; the result is empty exactly for all-whitespace input |
| Text.TrimRemovesOnlyEdgeSpaces | src/content.js:367 | `trim` removes only whitespace at the two ends: the result is an infix of the input, and everything before and after that infix is whitespace |
| Text.NatToString | src/content.js:180 | the number in the badge is rendered as decimal digits with no leading zero |
| Text.NatToStringRoundTrip | src/content.js:180 | reading the decimal rendering back gives the number |
| AutoAdd.PostId | src/content.js:271 | the id is the text after the leading `/post/`, up to the next `/post/` or the end, and contains no earlier occurrence of it |
| AutoAdd.ProbeTitle | src/content.js:286-287 | an attempt reads the `h1` text whenever a heading exists, even an empty one, and the document title only without a heading |
| AutoAdd.CleanTitle | src/content.js:301 | the cleaned title is the title with the first `Floatplane - ` cut out, then trimmed; a title without the prefix is only trimmed; the result has no spaces at its ends |
| AutoAdd.CleanTitleDropsSitePrefix | src/content.js:301 | a page title that starts with `Floatplane - ` loses exactly that prefix and is trimmed |
| AutoAdd.PageEntry | src/content.js:298-304 | the detected entry carries the page's id and URL, the title read by the probe cleaned by `CleanTitle`, the `og:image` thumbnail or empty, and no duration or subchannel |
| AutoAdd.FirstTitled | src/content.js:285-296 | the chosen attempt is the first with a non-empty title among at most four (one plus three retries); -1 when all are empty |
| AutoAdd.FirstTitledAttempt | src/content.js:285-296 | the count-down retry loop finds exactly `FirstTitled` |
| AutoAdd.Decide | src/content.js:265-307 | the detector ignores an empty queue and non-video pages; it selects the queued page's position only when that is not already current; it appends only an unqueued page whose title was read, as the entry built from the page's id and URL and the first titled probe; it ignores nothing else |
| AutoAdd.Apply | src/content.js:278-281 | the list is kept as a prefix; a select moves only the index; an append adds one entry and makes it current |
| AutoAdd.AutoAddKeepsInvariant | src/content.js:265-311 | the detector keeps ids unique and the state valid; it keeps the list as a prefix; it adds at most the page's own video, with an empty duration |
| AutoAdd.AutoAddMakesPageCurrent | src/content.js:274-307 | on a video page with a non-empty queue, the page's id ends up current when it was queued or a title was read; otherwise nothing changes |
| AutoAdd.AutoAddSyncsQueuedPage | src/content.js:274-282 | a queued page only moves the index to its position; nothing is written when it was already current |
| AutoAdd.FirstAttemptOnly | src/content.js:515-516 | the reload in the ended handler sees at most the first probe |
| Controller.WatchQueue.constructor | src/content.js:3-7 | the initial state is an empty queue, index -1 and a closed panel |
| Controller.WatchQueue.UpdateVisibility | src/content.js:39-50 | an empty queue closes the panel; otherwise the panel is left as it was |
| Controller.WatchQueue.Save | src/content.js:25-37 | storage becomes the saved state and the panel visibility is updated |
| Controller.WatchQueue.TogglePanel | src/content.js:127-130 | the toggle flips `isOpen` |
| Controller.WatchQueue.Hydrate | src/content.js:12-15 | the state becomes the loaded storage (valid when the storage is valid) |
| Controller.WatchQueue.AddToQueue | src/content.js:52-72 | the list becomes `WithEntry`; with `setAsCurrent` the index is the id's position, otherwise it is unchanged; writes happen except when a known id arrives without `setAsCurrent`; the notice matches each case (none when silent); validity is kept |
| Controller.WatchQueue.RemoveFromQueue | src/content.js:74-84 | the state becomes `RemoveAt`; the index stays in bounds; the new state is saved |
| Controller.WatchQueue.ClearQueue | src/content.js:86-90 | the state becomes the empty queue with index -1, is saved, and the panel closes |
| Controller.WatchQueue.DropEntry | src/content.js:204-221 | the state becomes `MoveEntry`; it is a permutation; the current entry is kept; nothing is written when `from == to` |
| Controller.WatchQueue.SelectEntry | src/content.js:247-253 | a row click makes that row current, saves, and navigates to its url |
| Controller.WatchQueue.PlayNext | src/content.js:471-485 | follows `NextStep`: on a go it sets the index, saves and navigates to that entry's url; otherwise it shows the notice and changes nothing |
| Controller.WatchQueue.PlayPrevious | src/content.js:487-501 | follows `PreviousStep` in the same way |
| Controller.WatchQueue.CheckAutoAdd | src/content.js:265-311 | the state becomes `Apply(Decide(...))`; it saves only when something changed; validity is kept |
| Controller.WatchQueue.LoadQueue | src/content.js:10-17 | the state becomes the detector applied to the loaded storage; it saves only when the detector acted; valid storage gives a valid state |
| Controller.WatchQueue.OnPlaybackEnded | src/content.js:512-529 | after the reload it follows `EndedStep`: on a go it sends an "Up Next: title" notice, navigates to the next url, and saves the advanced index; otherwise it sends "Queue complete!"; the panel is closed when the reloaded queue is empty |

## Left out

- DOM construction and rendering are not modelled. This covers the panel, the row markup, the drag-start and drag-over handlers and the notification element. A notification is only the message returned as `Notify`.
- Page scanning is not modelled: `processVideoLinks`, the mutation observer and its debounce, and the element queries of `extractVideoInfo` are DOM heuristics against third-party markup. Only their text tests are modelled (lines 342 and 369-376, in `Views`). The fallback title test at line 352 is the same test as line 342.
- `tryAutoPlayVideo`, `video.play()`, the play-button fallback, `setupAutoplay`'s listener registration and `init` are not modelled. These are calls into the browser and the player.
- The `contextValid` flag and the storage failure path that clears it are not modelled. Storage calls never fail in the model, so the flag would always be true.
- Storage is synchronous. The asynchronous `chrome.storage` calls, and races between overlapping saves, are not modelled.
- Timers and delays are not modelled: the 3 s notice, the 1 s retry delay, the 1.5 s "Up Next" pause and the 2 s polling. The retries are a bounded loop over a sequence of page probes.
- Controller.WatchQueue.OnPlaybackEnded: the detector's later retries are not modelled; only the first probe runs before the decision. The reload schedules the retries at about 1 s, 2 s and 3 s. Only the first falls inside the 1.5 s pause; the other two come after the navigation has been issued. An entry the first retry appends would be saved by the handler's later save, and the model does not show it.
- Storage.Saved: values are typed per key. A value of the wrong kind under a key reads as that key's default, whereas JavaScript would keep the foreign value.
- Controller.WatchQueue.PlayNext, Controller.WatchQueue.PlayPrevious, Controller.WatchQueue.OnPlaybackEnded: these require an index of at least -1 (at most `|queue|` for previous). With a stored index outside that range, `STATE.queue[i]` is `undefined`:
  - In next and previous, reading its `url` throws a `TypeError` (lines 481 and 497), after the index has already been set and the save started.
  - In the ended handler the throw comes at `nextVideo.title` (line 519), before any notice or navigation.
  Queue states that satisfy the invariant never have such an index.
- Controller.WatchQueue.RemoveFromQueue, Controller.WatchQueue.DropEntry: these require indices inside the list. The script gets them from rendered rows. Malformed drag data (`parseInt` giving `NaN`) is not modelled.
- Strings are sequences of Unicode scalar values. JavaScript's UTF-16 code units differ only for characters outside the Basic Multilingual Plane; there, `length > 1` in the title test counts two units where the model counts one.
- The auto-added entry has an empty `subchannel`; the script leaves it undefined, which the panel renders as empty.

## Findings

| source | as written | input that shows it | evidently intended | confidence | as-written member | corrected member |
|---|---|---|---|---|---|---|
| src/content.js:340-342 | the title filter rejects only `^\d+:\d+$`, the two-group duration | link text `1:23:45`, a long video's duration, is accepted as the title | reject every duration, `^\d+:\d+(:\d+)?$` as on line 369, as the comment on line 340 says | medium, not executed | Views.ThreePartPassesTitleTest | Views.IntendedTitleTest |
