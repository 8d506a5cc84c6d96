# Burn-after-listening client logic, in Dafny

This project models the three pieces of real client-side logic in the
browser front end of an ephemeral anonymous-confession app. Confessions
"burn" after an expiry time. Users react to them with emoji and can have
them narrated aloud.

- **Reactions** (`reactions.dfy`, from `src/components/ReactionBar.tsx`).
  `fetchReactions` folds the raw `(emoji, user_id)` rows of one confession into
  a map `emoji -> {count, userReacted}`. `toggleReaction` deletes the viewer's
  row for an emoji when that map says they reacted, and inserts one otherwise.
  It is guarded by the `loading` flag. The bar renders one button per palette
  emoji. The hosted `reactions` table is the class `ReactionTable`, a sequence
  of `(confession, user, emoji)` rows whose multiset is what the properties
  speak about. The fold is the method `GroupByEmoji`, with its loop. The
  component is the class `ReactionBar`.
- **Profile** (`profile.dfy`, from `src/pages/Profile.tsx`). These are pure
  functions: the active/burned split, the statistics, each row's display
  (expired flag, badge, delete button, title fallback, 150-character
  preview) and the delete-then-reload rule. Wall-clock time is an integer
  `now`, and `isPast(t)` is `t < now`. The statistics read the clock in the
  active filter and again in the burned filter, so they take two instants
  (`Clock`), one per filter.
- **Narration** (`narration.dfy`, from `src/hooks/useNarration.ts`). This is
  the class `Narrator`, with the hook's `isGenerating`, `isPlaying` and
  `audioRef.current`, plus the object URLs it has created and not revoked.
  The audio element is the class `Audio`, with `paused` and `currentTime`.
  Speech synthesis and `audio.play()` are outcome parameters.

The two guarded operations, `toggleReaction` and `generateAndPlayNarration`,
run as steps. The step before the first `await` is one method and the
continuation is another. Other events can happen in between. A third method
runs them back to back. Without this split, the `loading` and `isGenerating`
guards could never be true on entry, and the model could not show what they
do. Every other operation that awaits runs as one atomic step.

Behaviour of the code worth noting, which the model keeps:

- A failed synthesis leaves the previous, already stopped element installed,
  so a handle to it remains.
- Starting a new narration does not revoke the previous element's object
  URL. Only the `ended` and `error` listeners revoke.
- `togglePlayback` does not await `play()`, so `isPlaying` becomes true even
  when playback fails to start.
- A listener of an element that has since been replaced still clears
  `isPlaying`.
- The profile statistics evaluate `isPast` in two separate filters. A
  confession whose burn time passes between the two readings is counted as
  both active and burned, so `active + burned` can exceed `total`.

## Model

| member | source | states |
|---|---|---|
| `Reactions.GroupByEmoji` | src/components/ReactionBar.tsx:31-42 | null data gives the empty map. Otherwise the map has a key exactly for the emojis that occur, each count is the number of rows with that emoji and is at least 1, `userReacted` holds iff a user is signed in and one of the rows is theirs with that emoji, and the counts over the keys (in first-occurrence order) add up to the number of rows |
| `Reactions.ReflectsStep` | src/components/ReactionBar.tsx:34-41 | one turn of the `forEach` (a fresh entry for a new emoji, one more in its count, the mark for the signed-in user's row) turns the aggregate of the rows so far into the aggregate of those rows and the next one |
| `Reactions.CountPositiveIffMentioned` | src/components/ReactionBar.tsx:34-38 | an emoji's count is positive iff some row carries it |
| `Reactions.EmojisExactlyMentioned` | src/components/ReactionBar.tsx:35-37 | the object's key sequence holds each emoji that occurs, exactly once |
| `Reactions.CountsSumToRows` | src/components/ReactionBar.tsx:34-38 | summing the per-emoji counts over the keys gives the number of fetched rows |
| `Reactions.ReactionBar.FetchReactions` | src/components/ReactionBar.tsx:22-48 | a successful fetch makes the aggregate reflect the table's rows for this confession; a failed fetch leaves the previous aggregate unchanged |
| `Reactions.ReactionBar.constructor` | src/components/ReactionBar.tsx:13-16 | a new bar starts with the empty aggregate and `loading` false |
| `Reactions.Select` | src/components/ReactionBar.tsx:24-27 | each fetched pair (emoji, user) occurs exactly as often as the table holds the row (c, user, emoji), so duplicate triples are fetched as duplicates; no other pair is fetched |
| `Reactions.Decide` | src/components/ReactionBar.tsx:55-57 | the request targets the triple (confession, user, emoji); it is a delete iff the aggregate has the emoji with `userReacted` set, an insert otherwise (a missing key included) |
| `Reactions.Without` | src/components/ReactionBar.tsx:59-64 | the delete removes every copy of the triple and no other row |
| `Reactions.ApplyWrite` | src/components/ReactionBar.tsx:59-75 | an accepted delete leaves the rows with every copy of the triple removed and nothing else changed; an accepted insert adds one copy of it |
| `Reactions.DecideFollowsTable` | src/components/ReactionBar.tsx:55-78 | with an aggregate that reflects the table, the toggle deletes the triple iff the table holds it and inserts it iff it does not |
| `Reactions.FlipToggles` | src/components/ReactionBar.tsx:55-78 | with at most one row for the triple, a toggle on a current aggregate flips the triple's presence, keeps at most one copy and leaves every other row's multiplicity unchanged |
| `Reactions.DoubleFlipRestores` | src/components/ReactionBar.tsx:55-81 | with at most one row for the triple, two toggles with a refetch in between give back the original multiset of rows |
| `Reactions.CountIgnoresOrder` | src/components/ReactionBar.tsx:24-38 | the per-emoji count depends only on the multiset of table rows, not on their order |
| `Reactions.ReflectsIgnoresOrder` | src/components/ReactionBar.tsx:32-44 | an aggregate that reflects one ordering of the rows reflects every reordering of them |
| `Reactions.ReflectsDetermines` | src/components/ReactionBar.tsx:32-44 | two aggregates of the same rows are equal |
| `Reactions.ReactionTable.Perform` | src/components/ReactionBar.tsx:59-78 | an accepted delete or insert changes the table as the request says; a rejected one leaves it as it was |
| `Reactions.ReactionBar.BeginToggle` | src/components/ReactionBar.tsx:50-57 | with no user, or while a toggle is in flight, nothing changes and no request is made; otherwise `loading` is set and the request is delete iff the aggregate says `userReacted` for the emoji |
| `Reactions.ReactionBar.CompleteToggle` | src/components/ReactionBar.tsx:57-87 | the table changes only if the store accepts the request; the aggregate is refreshed only after an accepted request and a successful fetch; `loading` is false afterwards on every path |
| `Reactions.ReactionBar.ToggleReaction` | src/components/ReactionBar.tsx:50-88 | the whole toggle: a no-op when guarded; otherwise the chosen write, the refetch and `loading` false on every path |
| `Reactions.DoubleToggle` | src/components/ReactionBar.tsx:50-88 | from a current aggregate with at most one row for the triple, two successful toggles restore the table's multiset of rows and the aggregate itself |
| `Reactions.ButtonFor` | src/components/ReactionBar.tsx:92-109 | the button is for its emoji; a present key shows its count and is highlighted iff its `userReacted` is set; a missing key shows count 0, not reacted and no label; the label appears iff the count is positive; the button is disabled iff `loading` |
| `Reactions.Render` | src/components/ReactionBar.tsx:90-117 | exactly the 8 emojis of the palette (`AVAILABLE_EMOJIS`, line 11) are rendered, in palette order, the i-th button being the one for the i-th palette emoji |
| `Reactions.RenderShowsRows` | src/components/ReactionBar.tsx:92-113 | rendering a current aggregate shows, per palette emoji, the number of rows with it, a label iff there is one, and the highlight iff the signed-in user is among them |
| `Profile.IsExpired` | src/pages/Profile.tsx:35-36 | expired (the burned filter and each row's `isExpired`) is exactly not active, and `is_burned` makes a confession expired whatever the time |
| `Profile.ActiveOnes` | src/pages/Profile.tsx:35 | the active filter keeps every active confession with its multiplicity and drops every other |
| `Profile.BurnedOnes` | src/pages/Profile.tsx:36 | the burned filter keeps every expired confession with its multiplicity and drops every other |
| `Profile.TotalViews` | src/pages/Profile.tsx:37 | no confession has more views than the total, and the total is 0 iff no confession has any view |
| `Profile.ComputeStats` | src/pages/Profile.tsx:35-44 | `total` is the number of confessions, `active` the size of the active filter at its reading, `burned` the size of the burned filter at its reading, `totalViews` the sum of the view counts; if both filters read the same instant, `active + burned == total`; if the burned filter reads a later instant, `active + burned` exceeds `total` by exactly the number of unburned confessions whose burn time lies between the two readings |
| `Profile.FiltersAtTwoInstants` | src/pages/Profile.tsx:35-36 | with the burned filter reading the clock no earlier than the active one, every confession is counted at least once, and exactly those whose burn time lies between the readings are counted twice |
| `Profile.CountedTwice` | src/pages/Profile.tsx:35-42 | one unburned confession with burn time 5, the active filter reading 5 and the burned filter reading 6: the page shows total 1, active 1, burned 1 |
| `Profile.FiltersPartition` | src/pages/Profile.tsx:35-36 | the active and burned filters split the list: their multisets add up to the list's multiset |
| `Profile.TotalViewsAppend` | src/pages/Profile.tsx:37 | the views total of two lists joined is the sum of their totals |
| `Profile.ViewsPartition` | src/pages/Profile.tsx:35-37 | the views of the active and of the burned confessions add up to the total views |
| `Profile.DisplayTitle` | src/pages/Profile.tsx:134 | a null or empty title shows "Untitled Confession"; any other title is shown as it is; the shown title is never empty |
| `Profile.Preview` | src/pages/Profile.tsx:157-160 | content of at most 150 characters is shown unchanged; longer content shows 153 characters ending in "..."; the preview is never longer than 153 and starts with the content's first characters |
| `Profile.ViewRow` | src/pages/Profile.tsx:121-208 | the title is the title with its "Untitled Confession" fallback; the preview paragraph appears iff the content is non-empty and then shows the 150-character preview of it; tags and view count are the confession's; a row is expired iff the confession is expired; the delete button and the countdown appear iff it is not expired; the badge reads "Burned" when expired and "Active" otherwise |
| `Profile.ViewRows` | src/pages/Profile.tsx:120-213 | the list has one row per confession, the i-th row being the view of the i-th confession |
| `Profile.BadgesCountBurned` | src/pages/Profile.tsx:36 | at one instant, the rows with the "Burned" badge are as many as the burned filter keeps |
| `Profile.BadgesMatchStats` | src/pages/Profile.tsx:35-42 | rendered at the one instant both filters read, the "Burned" badge appears on as many rows as the burned figure says, and the other rows number the active figure |
| `Profile.FetchUserConfessions` | src/hooks/useConfessions.ts:34-49 | the result holds only the user's confessions from the store; on success it holds each of them exactly as often as the store does; on failure it is empty |
| `Profile.OwnedBy` | src/hooks/useConfessions.ts:36-39 | the query on `user_id` returns each of the user's confessions as often as the store holds it, and no other |
| `Profile.LoadUserConfessions` | src/pages/Profile.tsx:26-50 | nothing happens without a signed-in user; otherwise the page holds the fetched list, and statistics computed over it at the two readings of the clock |
| `Profile.InitialPageStats` | src/pages/Profile.tsx:11-18 | the page before loading shows an empty list and zero figures, which are the statistics of the empty list at any clock reading |
| `Profile.DeleteConfession` | src/hooks/useConfessions.ts:69-84 | an accepted delete removes every row with that id, keeps every other row with its multiplicity and reports success; a rejected one leaves the store unchanged and reports failure |
| `Profile.WithoutId` | src/hooks/useConfessions.ts:71-74 | the delete on `id` drops every row with that id and keeps every other row as often as the store holds it |
| `Profile.HandleDelete` | src/pages/Profile.tsx:52-59 | without confirmation, or when the delete fails, neither store nor page changes; after an accepted delete the store keeps exactly the rows with another id, each as often as before; with no user the page is unchanged; with a user the statistics describe the new list, which holds each of the user's remaining confessions as often as the store does after a successful reload, and nothing after a failed one |
| `Narration.Narrator.constructor` | src/hooks/useNarration.ts:6-8 | the hook starts not generating, not playing, with no element |
| `Narration.Audio.constructor` | src/hooks/useNarration.ts:30 | a new element is on the given object URL, paused, at position 0 |
| `Narration.Narrator.StopCurrentAudio` | src/hooks/useNarration.ts:10-16 | with an element: pause it, rewind it to 0 and clear `isPlaying`; without one: nothing changes; the invariant `isPlaying ==> element present` is kept |
| `Narration.Narrator.BeginNarration` | src/hooks/useNarration.ts:18-24 | a no-op while generating; otherwise the current element is stopped and `isGenerating` is set |
| `Narration.Narrator.NarrationSynthesized` | src/hooks/useNarration.ts:27-31 | on success a fresh element on a new object URL is installed and the URL counter advances by one; on failure the old element stays installed, no URL is created and `isGenerating` is cleared |
| `Narration.Narrator.PlaybackSettled` | src/hooks/useNarration.ts:44-52 | if `play()` succeeds the element plays and `isPlaying` is set; if it fails the new element stays installed and `isPlaying` is untouched; `isGenerating` is cleared either way |
| `Narration.Narrator.GenerateAndPlay` | src/hooks/useNarration.ts:18-53 | the whole request: nothing while generating; otherwise the previous element is left paused at 0, `isGenerating` is false at the end, and on successful synthesis a fresh element at position 0 is installed on the next URL, the counter advancing by one, the old URL stays unrevoked, and `isPlaying` holds iff `play()` succeeded |
| `Narration.Narrator.TogglePlayback` | src/hooks/useNarration.ts:55-65 | nothing without an element; when playing, pause and clear `isPlaying`; otherwise call `play()` and set `isPlaying`, even if `play()` fails |
| `Narration.Narrator.HandleAudioEvent` | src/hooks/useNarration.ts:33-42 | an `ended` or `error` event clears `isPlaying` and revokes that element's object URL |

## Left out

- Network, database and speech-synthesis calls are outcome parameters (`ok`, `writeOk`, `fetchOk`, `synthOk`, `playOk`). Toasts and `console.error` are not modelled; they have no effect on state.
- The remote store's own behaviour is not modelled. That covers row-level ownership checks on delete, the uniqueness constraint on reaction triples, server ordering by `created_at`, and the `mark_expired_confessions` sweep. The store returns rows in the order it holds them.
- `src/hooks/useConfessions.ts` is context, apart from `fetchUserConfessions` and `deleteConfession`, which the profile page calls. The feed's 30-second polling loop, the view-count read-then-write, the navigation bar and the route guard are not part of this model.
- `window.confirm` is the `confirmed` parameter of `HandleDelete`.
- `Profile.ComputeStats`: `isPast` reads the clock once per confession, so the readings within one filter can differ as well. The model takes one instant per filter. It says how far `active + burned` can exceed `total` only when the burned filter reads no earlier than the active one, so a clock that steps backwards is not covered.
- Wall-clock time is a parameter, and date formatting (`formatDistanceToNow`, the countdown timer) is not modelled.
- React re-renders and stale closures are not modelled. Each step runs atomically on the current state.
- Some operations await but are modelled as one atomic step: `FetchReactions`, `LoadUserConfessions`, `HandleDelete`, `FetchUserConfessions` and `DeleteConfession`. So are the continuation of a toggle (`CompleteToggle`: the write and the refetch) and the synthesis continuation. Interleavings inside these are not represented. Examples: two reloads whose fetches resolve out of order and leave a stale list on the page; the mount-time `fetchReactions` racing a toggle's refetch; another event between a toggle's write and its refetch.
- The aggregate is a map, not a JavaScript object. Property order for integer-like keys is not modelled. Neither are emoji strings that name an `Object.prototype` member such as `constructor`, which the source never makes an own key. Neither affects the eight palette buttons.
- The profile page's `loading` spinner is not modelled. Nor are the type badge and the "ago" timestamp; these are presentation only, so the confession's `type` and `created_at` are not fields of the model.
- `Profile.Preview`: lengths count Unicode characters. JavaScript's `length` and `substring` count UTF-16 code units, so the two can differ for characters outside the Basic Multilingual Plane.
- Narration: the element's own state changes are not modelled. For example, it pausing itself at the end of its media is left out. Only the hook's assignments are.
- `Narration.Narrator.PlaybackSettled` requires its element to be the installed one. The hook guarantees this because nothing else assigns `audioRef` while `isGenerating` holds; a stale-closure interleaving could break it.
