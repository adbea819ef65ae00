# boringbay: visit counting, ranking and badge rendering in Dafny

boringbay is a web ring. Each member site shows a badge that links back to the
ring, and the ring counts how its members send it traffic. This project models
the engine behind that and proves properties of the model:

- **`Context`** (`AppModel.Context`): the live page-view and referrer counters,
  the member indexes, the four-hour dedup cache of `"{ip}_{id}"` keys, `rank_svg`
  and the three render caches.
- **`boring_vistor`**: records one visit and returns the member's name, the new
  counts, a level in 1..10 and whether a notification goes out.
- **The five-minute tick** (`AppModel.Scheduler.Tick`): diffs the live counters
  against the last flushed snapshot, upserts one statistics row per changed
  member, and on a day other than the start day clears the live counters and
  the snapshots and sets `rank_svg` to the previous day's average. The dedup
  cache and the render caches are kept.
- **Startup** (`Context.constructor`): seeds the counters from today's rows and
  inverts the member map into a domain index.
- **The HTTP handlers** (`AppRouter`):
  - the Referer gate on the home page;
  - the home-page ranking by `5 * referrer + page_view`;
  - the badge, favicon and icon endpoints with their read-through render caches.
- **`BoringFace::render_svg`** (`BoringFaceModel`): the badge SVG is a template
  with `#name#` placeholders. It is filled by Rust's `str::replace`, which is
  modelled exactly as leftmost, non-overlapping replacement. The filled page is
  proved equal to the template's literal pieces interleaved with the
  substituted values.
- **The statistics table** (`StatisticsModel.StatisticsTable`): a keyed upsert
  on `(membership_id, created_at)` and the `today` and `all` reads.

Each stateful operation is a method. Its `ensures` ties the new state to a pure
function of the old one: `RecordVisit`, `ChangedIds`, `Synced`, `FlushRows`,
`Upserted`, `CountsOf`, `ReadThrough` or `RenderedSvg`. The properties the code
promises are then proved about those functions as lemmas.

Timestamps and days are integers (seconds, and midnight as seconds). Strings are
`seq<char>`. Rust's `i64` is an unbounded `int`, and its truncating `/` is
written out as `TruncDiv`.

## Where the code and its description differ

The model follows the code in each case:

- **Level formula.** The level is `(referrer + page_view / 5) / rank_svg`, with
  truncating division, clamped to 1..10 (`src/app_model.rs:103-108`).
- **Dedup key.** The key has no visit type (`src/app_model.rs:76`). A badge
  view therefore suppresses counting of a referral from the same address for
  four hours, and the reverse holds too (`AppModel.RepeatWithinTtlNotCounted`).
- **Notification.** A notification is flagged on every Badge visit, including
  visits that were not counted (`src/app_model.rs:94-99`).
- **Stale `_today`.** `_today` is fixed before the tick loop and never advanced
  (`src/app_model.rs:185-186, 227`). `Scheduler.today` is therefore a `const`,
  and every tick on a later day resets the counters again. Every such tick
  also upserts under the start day's key, so the start day's row is
  overwritten with the counts of the last five minutes, and no later day ever
  gets a row (`AppModel.StaleDayTickOverwrites`).
- **Dedup cache on rollover.** The day change clears the counters and snapshots,
  but never the dedup cache.
- **Border placeholder.** A face without a border leaves the `#svg_border#`
  placeholder in its output (`BoringFaceModel.RenderedSvgLayout`).
- **Version mismatch.** The handlers in `src/app_router.rs` use
  `*_render_cache` fields that the `Context` of `src/app_model.rs` does not
  declare, and they call a one-argument `render_svg`. The model adds the three
  caches to `Context`, and it calls the four-argument `render_svg` of
  `src/boring_face.rs` with the visit's name, page views, referrals and level.
- **Member name.** `Membership` in `src/membership_model.rs` has no `name`
  field, but `src/app_model.rs:132` reads one. The model adds it.

## Model

| member | source | states |
|---|---|---|
| AppModel.RecordVisit | src/app_model.rs:59-135 | `boring_vistor` as a function of the state before the call. An unknown domain gives `Err("not a member")` and changes nothing. |
| AppModel.RecordVisitEffect | src/app_model.rs:72-134 | For a member, the `ip_id` key is rewritten with a four-hour expiry and no other key changes. A counter rises by exactly one when the visit is counted for it: a Referrer or Badge visit with no live key. Otherwise it stays as it was, a missing entry reading as 0, and other members are untouched. The reply carries the new counts, `Level` of them, and `notify` exactly for Badge visits. |
| AppModel.Context.BoringVisitor | src/app_model.rs:59-135 | The imperative handler leaves the counters, cache and reply exactly as `RecordVisit` gives them. It keeps `rank_svg` and the render caches. |
| AppModel.IconNeverCounts | src/app_model.rs:86-100 | An ICON visit never changes either counter. |
| AppModel.RepeatWithinTtlNotCounted | src/app_model.rs:76-80 | After a visit of any type, a second visit of any type from the same ip to the same member within four hours changes neither counter. |
| AppModel.OtherVisitsKeepSuppression | src/app_model.rs:76-80 | A visit rewrites only its own key, so another ip or member keeps its suppression state. |
| AppModel.VisitorKey | src/app_model.rs:76 | Definition of the dedup key `"{ip}_{id}"`: the ip, one underscore, then the id's decimal text. `VisitorKeyInjective` proves it tells visits apart. |
| AppModel.IsCached | src/app_model.rs:77-80 | Definition of a live dedup entry: the key is present and `now` is before the expiry, which the visit sets four hours ahead. The suppression lemmas above are stated with it. |
| AppModel.TruncDiv | src/app_model.rs:103 | Definition of Rust's `i64` `/`: the quotient of the magnitudes, negated when exactly one operand is negative. `TruncDivBounds` characterises it independently. |
| AppModel.VisitorKeyInjective | src/app_model.rs:76 | The key `"{ip}_{id}"` determines both the ip and the member id, so visits from different addresses or to different members never share a key. |
| AppModel.TruncDivBounds | src/app_model.rs:103 | Rust's `i64` division: the quotient truncates toward zero, with the magnitude bounds and the sign rule. |
| AppModel.Level | src/app_model.rs:103-108 | The level lies in 1..10 and equals the truncated quotient whenever that quotient is in range, 1 below it and 10 above it. |
| AppModel.LevelMonotone | src/app_model.rs:103-108 | With a positive `rank_svg`, more page views or referrals never lower the level. |
| AppModel.CountsOf | src/app_model.rs:140-146 | The map built by inserting each row's column has exactly the rows' member ids as keys. |
| AppModel.CountsOfUniqueRows | src/app_model.rs:143-146 | When no member has two rows, each member's entry is its row's count. |
| AppModel.SeededFromToday | src/app_model.rs:138-146 | The counters seeded at startup hold, for each member, the counts of its row for today. |
| AppModel.SeedCounters | src/app_model.rs:140-146 | The seeding loop computes `CountsOf` today's rows for both columns. |
| AppModel.IndexDomains | src/app_model.rs:151-154 | Every member's domain maps to a member whose domain it is. Every indexed domain belongs to a member. |
| AppModel.Context.constructor | src/app_model.rs:137-178 | Counters seeded from today's rows, a domain index of the member map, the three fixed faces, an empty dedup cache, and `rank_svg` equal to the previous-day average. |
| AppModel.KeysInSomeOrder | src/app_model.rs:187 | `id_list` lists every member id once, in some order. |
| AppModel.ChangedIds | src/app_model.rs:194-209 | The `changed_list` the diff builds: the ids of `id_list` whose counts moved, in list order, never more of them than `id_list` has. `ChangedIdsExactly` and `ChangedIdsDistinct` state what it holds. |
| AppModel.Synced | src/app_model.rs:194-209 | The snapshots the diff leaves: each id of `id_list`, in turn, takes its live count when the two differ. `SyncedCopiesLive` states the result. |
| AppModel.ChangedIdsExactly | src/app_model.rs:194-209 | An id is in `changed_list` iff it is in `id_list` and its page views or referrals differ from the snapshot, a missing entry reading as 0. |
| AppModel.ChangedIdsDistinct | src/app_model.rs:194-209 | `changed_list` has no duplicates when `id_list` has none. |
| AppModel.SyncedCopiesLive | src/app_model.rs:194-209 | After the diff, each listed id's snapshot equals its live count. Unlisted ids keep their snapshot, present or absent. |
| AppModel.DiffStep | src/app_model.rs:194-209 | One loop step appends the id to `changed_list` once iff it changed, and brings both snapshots up to date for it. |
| AppModel.NothingChangedAfterSync | src/app_model.rs:194-209 | A second diff with no visits in between finds nothing changed. |
| AppModel.DiffOne | src/app_model.rs:195-208 | One iteration of the diff loop: the id is appended to `changed_list` iff its page views or referrals differ from the snapshot. Each snapshot takes the live count exactly when the two differ. |
| AppModel.DiffStepAt | src/app_model.rs:194-209 | A loop step at index `i` carries the changed list and both snapshots from `ids[..i]` to `ids[..i+1]`. |
| AppModel.NextInList | src/app_model.rs:187 | `id_list` comes from the keys of `id2member`, so it is duplicate-free: the id at position `i` is not among the earlier ones. |
| AppModel.DiffCounts | src/app_model.rs:194-209 | The diff loop over `id_list` yields `ChangedIds` and the `Synced` snapshots. |
| AppModel.Scheduler.Diff | src/app_model.rs:190-209 | The scheduler's diff clears `changed_list`, runs the loop over its `id_list`, and stores the result in its fields. |
| AppModel.SnapshotRow | src/app_model.rs:212-222 | The row the flush upserts for a member: `created_at` the stale `_today`, `updated_at` now, and the snapshot counts, a missing one reading as 0. |
| AppModel.FlushRows | src/app_model.rs:211-224 | The table after the flush: one upsert of `SnapshotRow` per changed id, in `changed_list` order. `FlushStoresSnapshots` and `FlushKeepsOtherRows` state what it holds. |
| AppModel.FlushStoresSnapshots | src/app_model.rs:211-224 | After the flush, each changed member has a row for `_today` holding its snapshot counts. |
| AppModel.FlushKeepsOtherRows | src/app_model.rs:211-224 | The flush leaves rows under every other key untouched, and keys and row ids stay unique. |
| AppModel.Scheduler.Flush | src/app_model.rs:211-224 | The flush loop issues one upsert per changed id, in order: the table becomes `FlushRows`. |
| AppModel.Scheduler.Tick | src/app_model.rs:188-239 | One tick runs the diff and then the flush. On a day other than the fixed `_today`, live counters and snapshots become empty and `rank_svg` takes the new average. Otherwise counters and `rank_svg` are kept. The dedup cache and render caches never change. |
| AppModel.StaleDayTickOverwrites | src/app_model.rs:211-237 | On a tick after a rollover, every member counted since is written under the start day's key, overwriting that row with the new counts, and the later day's rows are left exactly as they were. |
| AppModel.Scheduler.constructor | src/app_model.rs:181-187 | Empty snapshots and `changed_list`, `_today` fixed at the start day. |
| StatisticsModel.NextId | src/statistics_model.rs:25-32 | A freshly inserted row's id is positive and larger than every id already in the table. |
| StatisticsModel.Merged | src/statistics_model.rs:33-39 | The `DO UPDATE SET` clause: the conflicting row takes the new counts and `updated_at`, and keeps its id, member and day. |
| StatisticsModel.Upserted | src/statistics_model.rs:21-42 | A fresh `(membership_id, created_at)` key appends one row with the given timestamps and counts and a fresh id. A conflict overwrites that row's counts and `updated_at` and keeps its id, member and day. Afterwards the key holds the given counts. Every other key's row is unchanged. Key and id uniqueness are preserved. |
| StatisticsModel.UpsertTwice | src/statistics_model.rs:33-39 | Two upserts with one key add at most one row, and the row holds the second call's counts. |
| StatisticsModel.FindUnique | src/statistics_model.rs:33 | With unique keys, looking up a row's key finds that row. |
| StatisticsModel.StatisticsTable.InsertOrUpdate | src/statistics_model.rs:21-42 | The table becomes `Upserted` of the old one, stays well-formed, and one row is affected. |
| StatisticsModel.RowsCreatedAt | src/statistics_model.rs:44-57 | Exactly the rows created at the given midnight. |
| StatisticsModel.OneRowPerMemberADay | src/statistics_model.rs:44-57 | No member has two rows in one day's result. |
| StatisticsModel.StatisticsTable.Today | src/statistics_model.rs:44-57 | `today` returns exactly the rows whose `created_at` is today's midnight, with unique keys. |
| StatisticsModel.StatisticsTable.All | src/statistics_model.rs:59-67 | `all` returns every row, in order. |
| Strings.NatToString | src/boring_face.rs:96-98 | The decimal digits of a natural number: non-empty, digits only, and starting with `0` only for 0 itself. |
| Strings.IntToString | src/boring_face.rs:96-98 | `to_string` of an `i64`: non-empty, made of `-` and digits only, and never containing `_` or `#`, so it cannot form or break a placeholder. |
| Strings.IntToStringShape | src/boring_face.rs:96-98 | The text starts with `-` exactly when the number is negative, and every other character is a digit. |
| Strings.NatToStringValue | src/boring_face.rs:96-98 | The printed digits denote the number they were printed from. |
| Strings.IntToStringValue | src/boring_face.rs:96-98 | The printed text, read back with its sign, gives the integer again. |
| Strings.IntToStringInjective | src/boring_face.rs:96-98 | Distinct integers print differently. |
| Strings.Replace | src/boring_face.rs:65-67 | Definition of `str::replace` for a non-empty pattern: matches are taken leftmost first and never overlap. `ReplaceSkips` and `ReplaceFillsSlots` state its effect on templates. |
| Strings.ReplaceSkips | src/boring_face.rs:65-67 | `str::replace` leaves text without the pattern's first character untouched. |
| Strings.ReplaceFillsSlots | src/boring_face.rs:65-67 | Replacing a placeholder in a template, whose literal pieces hold no `_`, puts the value in exactly the slots holding that placeholder and changes nothing else. |
| Strings.FillFourSlots | src/boring_face.rs:94-98 | Four chained replacements of four distinct placeholders fill the four slots in order. |
| BoringFaceModel.FilledHeader | src/boring_face.rs:65-68 | `SVG_HEADER` with `#fill_white#` and then `#fill_black#` replaced by the face's colours. `FilledHeaderLayout` gives the result's shape. |
| BoringFaceModel.Bar | src/boring_face.rs:71-78 | Bar `i`: a filled or hollow rectangle at x = 35.5 + 4i. Its text holds no `_`, so no placeholder can form across it. |
| BoringFaceModel.FilledBorder | src/boring_face.rs:93-97 | `SVG_BORDER` with the site name, page views, referrals and rank replaced in that order. `FilledBorderLayout` gives the result's shape. |
| BoringFaceModel.RenderedSvg | src/boring_face.rs:63-101 | The chain of replacements `render_svg` performs, for a rank in 1..10. `RenderSvg` is proved equal to it, and `RenderedSvgLayout` gives its shape. |
| BoringFaceModel.RenderSvg | src/boring_face.rs:63-103 | The method needs `1 <= rank <= 10`, the assertion's range. It returns `RenderedSvg`: the coloured header, then ten bars, then the footer, with the viewport and, for a bordered face, the border replaced. |
| BoringFaceModel.FilledBarCount | src/boring_face.rs:70-81 | Bar i is filled iff `i < rank`, so exactly `rank` of the ten bars are filled. |
| BoringFaceModel.BarFlagsAt | src/boring_face.rs:73-76 | The i-th bar's flag is `i < rank`. |
| BoringFaceModel.CountFilledPrefix | src/boring_face.rs:70-81 | Among the first n bars, `min(n, rank)` are filled. |
| BoringFaceModel.FilledDiffersFromHollow | src/boring_face.rs:73-76 | A filled bar (`class="fill-black"`) and a hollow one (`fill="#d55f6f"`) render differently. |
| BoringFaceModel.FilledHeaderLayout | src/boring_face.rs:65-68 | The header with `#fill_white#` and `#fill_black#` replaced by the face's colours. Each placeholder slot takes its colour, and the viewport and border placeholders stay. |
| BoringFaceModel.ViewportLayout | src/boring_face.rs:83-89 | `#svg_viewport#` is replaced by one of two fixed viewBox strings, chosen only by `with_border`. |
| BoringFaceModel.FilledBorderLayout | src/boring_face.rs:91-100 | The border text with the name, uv, referrals and rank put in its four slots. |
| BoringFaceModel.RenderedSvgLayout | src/boring_face.rs:63-103 | The whole page is the literal template interleaved with the viewBox, the colours, and the filled border for a bordered face. Without a border, the page keeps `#svg_border#`. |
| AppRouter.DomainFromReferer | src/app_router.rs:144-166 | A domain is returned exactly when the Referer header is present, decodes as UTF-8, parses as a URL and has a domain. It is that URL's domain. Each failing stage gives its own message, as in the source. |
| AppRouter.HomePage | src/app_router.rs:105-142 | A Referrer visit is recorded, as `RecordVisit`, exactly when the header yields a domain; otherwise the counters and cache are unchanged. `rank_svg` and all three render caches are always kept. The page lists every member once, scored on the counts after the visit, best first. |
| AppRouter.Score | src/app_router.rs:127-128 | A member's home-page score: five times its referrals plus its page views, a missing count reading as 0. |
| AppRouter.RankMembers | src/app_router.rs:122-132 | One `(id, 5*referrer + page_view)` pair per member, missing counts as 0. Ids are distinct and cover exactly the members, so the length equals the member count. Scores are non-increasing. |
| AppRouter.MembersInOrder | src/app_router.rs:134-137 | The listed members are the ranked ids' members, in ranked order. |
| AppRouter.InsertByScore | src/app_router.rs:132 | Inserting a pair adds exactly that pair to the multiset of pairs. |
| AppRouter.SortByScore | src/app_router.rs:132 | The sort is a permutation of its input. |
| AppRouter.InsertKeepsOrder | src/app_router.rs:132 | Inserting into a non-increasing list keeps it non-increasing. |
| AppRouter.InsertKeepsIdsDistinct | src/app_router.rs:132 | Inserting a pair with a new id keeps ids distinct. |
| AppRouter.SortedByScore | src/app_router.rs:132 | The sorted pairs are in non-increasing score order. |
| AppRouter.SortKeepsIdsDistinct | src/app_router.rs:132 | Sorting keeps ids distinct. |
| AppRouter.SortKeepsIds | src/app_router.rs:132 | Sorting keeps the same ids, the same scores and the same length. |
| AppRouter.ScoredIdsFacts | src/app_router.rs:124-130 | The pushed pairs carry distinct ids, each with its score, covering the listed ids. |
| AppRouter.KeysCounted | src/app_router.rs:124 | Listing each key once yields exactly as many pairs as there are members. |
| AppRouter.ReadThrough | src/app_router.rs:28-39 | The answer is always the entry the cache then holds under key 10. An entry already stored is never replaced, a miss answers with the fresh render, and no key other than 10 is ever written. |
| AppRouter.FirstRenderSticks | src/app_router.rs:28-39 | Over any run of requests, every answer equals the first one, whatever level later requests would render. |
| AppRouter.StoredRenderKept | src/app_router.rs:28-39 | Once key 10 holds an SVG, every later request gets exactly that SVG. |
| AppModel.Context.StoreRender | src/app_router.rs:36-37 | Storing a render writes the one cache of that kind at that key. The other two caches, the counters and `rank_svg` are untouched, and `Context`'s invariant is kept. |
| AppRouter.CachedSvg | src/app_router.rs:28-39 | The handler's lookup returns and stores what `ReadThrough` gives for the visit's render. The counters, `rank_svg` and the other two caches are untouched, and `Context`'s invariant is kept. |
| AppRouter.ShowSvg | src/app_router.rs:12-103 | The visit is recorded as `RecordVisit`, with Badge for the badge and ICON for favicon and icon. A non-member gets 404 `text/plain` with the error text and no cache change. A member gets 200 `image/svg+xml` with the read-through SVG of its visit, rendered at the visit's level in 1..10. |

## Left out

- **Concurrency.** Tokio `RwLock`s, `async`, and the non-atomic get-then-set on the dedup cache are not modelled. Each handler call and each tick is one atomic step.
- **The tick's driver.** The `sleep` loop is not modelled. `Scheduler.Tick` is one iteration of its body.
- **Client headers.** Reading `CF-Connecting-IP` and `CF-IPCountry` and unwrapping them is not modelled. The ip is a parameter and the country is unused.
- **Broadcast.** The regex IP masking, the `serde_json` event and the `watch` channel send are not modelled. Only the `notify` flag of the reply remains.
- **Member redaction.** Redacting members before broadcast touches fields that `Membership` does not declare, and is left out.
- **Member list.** Reading `membership.json` from disk is not modelled. The member map is a constructor parameter.
- **`prev_day_rank_avg`.** Its body is not part of this model; its result is a parameter of the constructor and of `Tick`. It can be 0, and Rust would then panic on division. That case is excluded by the requires `rank_svg != 0` of the visit operations.
- **Dedup cache expiry.** The `r_cache` internals are reduced to a map from key to expiry second, with a key live while `now < expiry`. The cache's ten-minute default TTL is never used, because every entry is set with four hours.
- **The database.** Diesel, SQLite, connection pools, `debug_query` printing and the `unwrap`s on pool and upsert results are not modelled. The table is a sequence of rows, and a new row's id is one more than the largest.
- **A failed startup query.** At startup a failed `today` query is swallowed by `unwrap_or_default` (`src/app_model.rs:138`), so the counters start empty instead of the process panicking. `Context.constructor` takes today's rows as a parameter; that failure is the case of an empty sequence, and no error value is modelled.
- **`schema.rs`.** It declares a `trending` table, not `statistics`, and is not part of this model.
- **Clocks.** The wall clock and chrono dates are parameters: the current day as its midnight, `now` in seconds.
- **Parsing libraries.** `url::Url::parse` and UTF-8 decoding are passed to `DomainFromReferer` as partial functions.
- **The home page template.** askama rendering of the page, and its possible error, are not modelled. `HomePage` returns the ordered member list the template receives.
- **Bar x-coordinates.** The float coordinates `35.5 + 4i` are written as the integer part followed by `.5`. Rust's float formatting gives the same text for these values, but float formatting itself is not modelled.
- **Tie order.** `sort_by` is stable, but ties are listed in the `HashMap` key order, which is arbitrary. `SortByScore` is an insertion sort, and the model states no order among equal scores.
- **Integer overflow.** `i64` overflow of the counters and scores is not modelled.
- **Startup wiring.** `src/main.rs`, the pool setup in `src/lib.rs` and `src/app_error.rs` are startup wiring and HTTP error mapping, and are not part of this model.
- FilledBorderLayout: stated for site names without `_`. A name containing a later placeholder such as `#site_uv#` would itself be rewritten by the chained replacements. `RenderedSvg` still models that case exactly.
