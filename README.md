# A verified model of the site's deterministic logic

The repository is a personal site: a Next.js front end and a Sanity
content studio. Most of it is presentation. This project models the
deterministic logic in Dafny and proves properties about it. That logic is:

- **The completed-todo heatmap** (`buildHeatmapDays`). Completed todos are
  bucketed by UTC calendar day into a map of count, priority-weighted score
  and task titles. A window of `max(0, days)` consecutive days ending on
  today's UTC day is then read out of the map, oldest first, with zeroes for
  empty days. Both passes are imperative methods (`BucketByDay`,
  `ReadWindow`). Each is proved against the specification function
  `Heatmap`, and the window properties are lemmas about `Heatmap`.
- **ECMAScript dates in UTC** (`CivilCalendar`). Time values are integer
  milliseconds. Days are counted from 1970-01-01. The proleptic Gregorian
  calendar is computed in closed form (days to civil date and back). The
  date part of `toISOString` follows the ISO 8601 extended calendar format
  (ISO 8601:2004 section 4.1.2.2), with the expanded six-digit signed year
  of section 4.1.2.4 outside 0000..9999.
- **YouTube video-id extraction**, in two copies:
  - the current `getYouTubeId` (`YouTube`), which rejects playlists and drops
    one trailing `/` on `youtu.be`, together with the URL builders;
  - the older copy inside the blog post card (`PostCard`), which has neither
    behaviour, together with the values the card derives from a post.

  The URL parser is a parameter, a partial function from strings to
  `WebUrl.Url`. The query string is read into name/value pairs as section
  5.1 of the WHATWG URL Standard describes (`WebUrl.ParseQuery`).
- **The content studio's custom rules.** These are:
  - the "required when published" and "required when done" validators;
  - `slugify`;
  - the YouTube-link validator;
  - `formatDuration`;
  - the `preview.prepare` labels of posts, songs, todos and code blocks.
- **The mock activity widget** (`ActivityHeatmap`). It covers the
  level-to-colour map, the sample tasks per level, and the 140-day generator,
  which is a loop method. It also covers grouping the days into weeks, also a
  loop method. `Math.random()` and the shuffle are inputs.
- **The preview-mode entry handler** (`PreviewRoute`). The decision between
  401, 404 and a redirect is a pure function. `PreviewSession.Get` is the
  handler as a method on a class holding the draft-mode flag, and it sets
  the flag only when it redirects.

## Model

| member | source | states |
|---|---|---|
| CivilCalendar.DayOf | app/lib/todo-heatmap.ts:16 | the UTC day of a time value a `Date` can hold lies in the range of days a `Date` can reach |
| CivilCalendar.DayStart | app/lib/todo-heatmap.ts:18-19 | the intended `toUtcMidnight`: it falls on the same UTC day, is a whole number of days since the epoch, and lies at most one day minus 1 ms before the time |
| CivilCalendar.FullYear | app/lib/todo-heatmap.ts:19 | `Date.UTC` reads a year from 0 to 99 as 1900 to 1999 and keeps every other year |
| CivilCalendar.UtcMidnight | app/lib/todo-heatmap.ts:18-19 | `toUtcMidnight` as written, `Date.UTC` of the UTC year, month and day, is a whole number of days since the epoch |
| CivilCalendar.UtcMidnightOutsideTwoDigitYears | app/lib/todo-heatmap.ts:18-19 | outside the years 0..99 `toUtcMidnight` as written is the start of the time's UTC day |
| CivilCalendar.TwoDigitYearMidnight | app/lib/todo-heatmap.ts:18-19 | for a time on 0050-06-15 `toUtcMidnight` as written gives the midnight of 1950-06-15, a different day |
| CivilCalendar.CivilFromDays | app/lib/todo-heatmap.ts:16 | the civil date of a day has a month in 1..12 and a day in 1..31 |
| CivilCalendar.CivilRoundTrip | app/lib/todo-heatmap.ts:16 | turning a day number into a civil date and back gives the day number, for every integer day |
| CivilCalendar.CivilFromDaysInjective | app/lib/todo-heatmap.ts:16 | different days have different civil dates |
| CivilCalendar.ValidDayYear | app/lib/todo-heatmap.ts:16 | every day a `Date` can hold lies in a year from -271821 to 275760 |
| CivilCalendar.IsoYear | app/lib/todo-heatmap.ts:16 | the year field is four digits that read back as the year for years 0..9999, and otherwise `-` or `+` followed by six digits that read back as the year's magnitude |
| CivilCalendar.IsoYearInjective | app/lib/todo-heatmap.ts:16 | different years give different year fields |
| CivilCalendar.DateStringInjective | app/lib/todo-heatmap.ts:16 | the date part of `toISOString` (year, month, day) determines the day |
| CivilCalendar.IsoString | app/lib/todo-heatmap.ts:16 | `toISOString` starts with the date part, then `T`, and is 14 characters longer than it, ending in `Z` |
| CivilCalendar.UtcDayKeyCutsDate | app/lib/todo-heatmap.ts:16 | `toUtcDayKey` is the first ten characters of the date part of `toISOString` |
| CivilCalendar.UtcDayKeyFourDigitYears | app/lib/todo-heatmap.ts:16 | for years 0..9999 the key as written is the full `YYYY-MM-DD` date |
| CivilCalendar.ExtendedYearKeysCollide | app/lib/todo-heatmap.ts:16 | the key as written gives the same `+010000-01` to 10000-01-01 and 10000-01-02 |
| CivilCalendar.DayKeyInjective | app/lib/todo-heatmap.ts:16 | the whole date part, used as the key, is different for different days |
| JsText.PadDigitsValue | studio-jeremiah.dev/schemaTypes/song.ts:9 | `padStart(w, '0')` of a number below 10^w has w digits and reads back as the number |
| JsText.PadDigitsInjective | studio-jeremiah.dev/schemaTypes/song.ts:9 | different numbers below 10^w pad to different strings |
| JsText.NatToStringValue | studio-jeremiah.dev/schemaTypes/song.ts:9 | the decimal form of a natural number reads back as that number |
| JsText.TrimStart | studio-jeremiah.dev/schemaTypes/post.ts:19 | the result is a suffix that does not start with white space, and everything dropped is white space |
| JsText.TrimEnd | studio-jeremiah.dev/schemaTypes/post.ts:19 | the result is a prefix that does not end with white space, and everything dropped is white space |
| JsText.TrimEmptyIff | studio-jeremiah.dev/schemaTypes/post.ts:19 | `trim()` leaves something exactly when the string has a non-white-space character |
| JsText.AsciiLower | studio-jeremiah.dev/schemaTypes/post.ts:51 | `toLowerCase` keeps the length and lowers each ASCII capital in place |
| JsText.FirstIndex | studio-jeremiah.dev/schemaTypes/todo.ts:83 | the index of the first occurrence: the character is there and not before |
| JsText.SplitLength | studio-jeremiah.dev/schemaTypes/blockContent.ts:138 | `split` on a one-character separator always gives at least one piece |
| TodoHeatmap.Weight | app/lib/todo-heatmap.ts:10-14 | low weighs 1, medium 3, high 5, and any other priority 1 (`?? 1`, line 36) |
| TodoHeatmap.TaskLabel | app/lib/todo-heatmap.ts:37 | a non-empty title is kept, and an empty one is shown as "Untitled task" |
| TodoHeatmap.CompletedDay | app/lib/todo-heatmap.ts:29-33 | a todo has a day exactly when its completion time parsed to a time value a `Date` can hold |
| TodoHeatmap.LandsOnDay | app/lib/todo-heatmap.ts:33-38 | a todo is bucketed under a day's key exactly when it was completed on that day |
| TodoHeatmap.TasksOnSnoc | app/lib/todo-heatmap.ts:34-38 | a todo appended to the input adds its label at the end of its day's titles, its weight to its day's score, and nothing to other days |
| TodoHeatmap.TasksOnAppend | app/lib/todo-heatmap.ts:28-39 | a day's titles and score for a concatenated input are those of the parts, in input order |
| TodoHeatmap.NoTasksNoScore | app/lib/todo-heatmap.ts:34-36 | a day without titles has score 0 |
| TodoHeatmap.ScoreBounds | app/lib/todo-heatmap.ts:36 | a day's score lies between its number of tasks and five times that number |
| TodoHeatmap.TallyLanded | app/lib/todo-heatmap.ts:34-38 | adding one to the count, the weight to the score and the label to the titles of the todo's day keeps the map equal to the tallies of the todos seen so far |
| TodoHeatmap.TallySkipped | app/lib/todo-heatmap.ts:29-31 | skipping a todo whose date does not parse keeps the map equal to the tallies of the todos seen so far |
| TodoHeatmap.BucketByDay | app/lib/todo-heatmap.ts:26-39 | the first loop leaves a map holding exactly the days some todo landed on, each with its count, score and labels |
| TodoHeatmap.ReadDay | app/lib/todo-heatmap.ts:49-55 | reading a key out of that map gives the day's entry, with count 0, score 0 and no tasks for a missing key |
| TodoHeatmap.WindowKeys | app/lib/todo-heatmap.ts:45-48 | a window of n days has n keys |
| TodoHeatmap.WindowKeysAt | app/lib/todo-heatmap.ts:45-48 | key j of the window is the key of the window's first day plus j |
| TodoHeatmap.HeatmapAt | app/lib/todo-heatmap.ts:42-55 | entry j of the heatmap is the entry of day today - (n - 1) + j |
| TodoHeatmap.ReadWindow | app/lib/todo-heatmap.ts:41-58 | the count-down loop over offsets produces the heatmap of the todos the map tallies |
| TodoHeatmap.BuildHeatmapDays | app/lib/todo-heatmap.ts:21-59 | `buildHeatmapDays` returns the heatmap: one entry per window day, oldest first, each the day's tallies |
| TodoHeatmap.HeatmapShape | app/lib/todo-heatmap.ts:42-55 | there are `max(0, days)` entries, none for `days <= 0`, the last is today's UTC day, the dates are pairwise different, and each count is the number of its tasks |
| TodoHeatmap.ZeroFilled | app/lib/todo-heatmap.ts:50-55 | a day nobody completed anything on shows count 0, score 0 and no tasks |
| TodoHeatmap.UnparsedTodoIgnored | app/lib/todo-heatmap.ts:29-31 | removing a todo whose date does not parse leaves the heatmap unchanged |
| TodoHeatmap.SingleTodo | app/lib/todo-heatmap.ts:34-38 | one todo alone gives its day count 1, its weight as score and its label as the only task |
| TodoHeatmap.SameDayAccumulates | app/lib/todo-heatmap.ts:34-38 | a low, a medium and a high todo on one day give count 3, score 9 and the three labels in input order |
| TodoHeatmap.WindowHits | app/lib/todo-heatmap.ts:45-49 | a todo lands on exactly one key of the window when its day is inside it, and on none otherwise |
| TodoHeatmap.WindowTasksCount | app/lib/todo-heatmap.ts:45-49 | the tasks under the window's keys number the todos completed inside the window |
| TodoHeatmap.CountsSumToTodosInWindow | app/lib/todo-heatmap.ts:33-55 | the counts of the heatmap add up to the number of todos whose UTC day lies in the window, so todos outside it never surface |
| WebUrl.PlusToSpace | app/lib/youtube.ts:49 | every `+` of a query name or value reads as a space, and the length is kept |
| WebUrl.Get | app/lib/youtube.ts:49 | `searchParams.get` finds a value exactly when `has` holds |
| WebUrl.GetFirst | app/lib/youtube.ts:49 | the value found belongs to the first pair with that name |
| WebUrl.StripWww | app/lib/youtube.ts:22 | one leading `www.` is dropped, and a host without it is unchanged |
| WebUrl.QueryOfVideoId | app/lib/youtube.ts:48-52 | the query `v=<id>` reads as the single pair (`v`, id) |
| YouTube.Segment | app/lib/youtube.ts:37 | `[^/?]+` takes the longest prefix without a stop character |
| YouTube.CaptureOf | app/lib/youtube.ts:37-46 | a path `prefix + id + rest`, where the id has no stop character and the rest starts with one or is empty, captures exactly the id |
| YouTube.DropTrailingSlash | app/lib/youtube.ts:31 | `replace(/\/$/, '')` removes one final `/` when there is one and nothing else |
| YouTube.GetYouTubeId | app/lib/youtube.ts:15-59 | a result is non-empty, comes from a link that parsed, is not a playlist, and is on `youtube.com` or `youtu.be` after dropping `www.` |
| YouTube.NoLinkNoId | app/lib/youtube.ts:16-21 | a missing or empty link, or one that does not parse, gives `null` |
| YouTube.PlaylistRejected | app/lib/youtube.ts:25-27 | a `/playlist` path or a `list` parameter gives `null` whatever the host |
| YouTube.ForeignHostRejected | app/lib/youtube.ts:29-55 | any host other than `youtube.com` or `youtu.be` after dropping `www.` gives `null` |
| YouTube.ShortLinkId | app/lib/youtube.ts:29-33 | on `youtu.be` the id is the path without its first character and at most one final `/`, and it is `null` exactly when that leaves nothing |
| YouTube.ShortsId | app/lib/youtube.ts:36-40 | `/shorts/<id>` gives the id up to the next `/` or `?` |
| YouTube.EmbedId | app/lib/youtube.ts:42-46 | with no shorts match, `/embed/<id>` gives the id up to the next `/` or `?` |
| YouTube.WatchParamId | app/lib/youtube.ts:48-55 | otherwise the first `v` parameter is the id when non-empty, and the result is `null` without one |
| YouTube.ThumbnailUrl | app/lib/youtube.ts:67-69 | the URL is the fixed thumbnail prefix, then the id, then exactly `/maxresdefault.jpg` |
| YouTube.ThumbnailFallbackUrl | app/lib/youtube.ts:75-77 | the URL is the fixed thumbnail prefix, then the id, then exactly `/hqdefault.jpg` |
| YouTube.WatchUrl | app/lib/youtube.ts:82-84 | the id follows the fixed watch prefix |
| YouTube.BuildersInjective | app/lib/youtube.ts:67-84 | different ids give different thumbnail, fallback and watch URLs |
| YouTube.WatchUrlRoundTrip | app/lib/youtube.ts:48-52 | the id of the watch URL built from an id over `[A-Za-z0-9_-]` is that id |
| PostCard.CardYouTubeId | app/blog/_components/post-card.tsx:12-45 | a result comes from a link that parsed, and an empty result only from `youtu.be` |
| PostCard.CardNoId | app/blog/_components/post-card.tsx:13-18 | a missing, empty or unparsable link, or a host other than `youtube.com` or `youtu.be`, gives `null` |
| PostCard.CardShortLinkVerbatim | app/blog/_components/post-card.tsx:20-22 | on `youtu.be` the id is the path without its first character, kept verbatim, so `/` gives the empty id |
| PostCard.WatchListQuery | app/blog/_components/post-card.tsx:35 | the query `v=<x>&list=<y>` reads as the pairs (`v`, x) and (`list`, y), in order |
| PostCard.CardWatchId | app/blog/_components/post-card.tsx:24-38 | on `youtube.com`, with `www.` or without, and with neither a shorts nor an embed capture, the card's id is the first `v` parameter when it is non-empty and `null` otherwise, whether or not the link is a playlist |
| PostCard.CardIgnoresPlaylist | app/blog/_components/post-card.tsx:24-38 | `watch?v=X&list=Y` gives X on the card, where the current extractor gives `null` |
| PostCard.CardAgreesWithCurrent | app/blog/_components/post-card.tsx:12-45 | for a link that is not a playlist and whose path has no `?`: on `youtube.com` the card and the current extractor give the same answer, `null` included; on `youtu.be` the card gives the current id or the id plus `/`, and `""` or `"/"` where the current one gives `null`; on other hosts both give `null` |
| PostCard.CardShortsId | app/blog/_components/post-card.tsx:24-28 | a `/shorts/<id>` link gives the card that id, playlist or not |
| PostCard.CardEmbedId | app/blog/_components/post-card.tsx:30-33 | with no shorts match, an `/embed/<id>` link gives the card that id, playlist or not |
| PostCard.CardThumbnail | app/blog/_components/post-card.tsx:55-57 | there is a thumbnail exactly when the id is non-empty, and it is the thumbnail URL of the id |
| PostCard.CardImage | app/blog/_components/post-card.tsx:58 | a non-empty cover image wins over the thumbnail |
| PostCard.ShownTags | app/blog/_components/post-card.tsx:99-101 | the card shows the first min(4, n) tags, in order, and none without tags |
| PostCard.Card | app/blog/_components/post-card.tsx:53-62 | the link is `/blog/` + slug, there is an image exactly when there is a cover or a thumbnail, and an unpublished post is labelled "Draft" |
| StudioValues.DateOr | studio-jeremiah.dev/schemaTypes/post.ts:197-203 | a date is shown through the locale formatter, and a missing one as the placeholder ("Draft" for posts, "Not completed" for todos, todo.ts:85-91) |
| StudioValues.OrElse | studio-jeremiah.dev/schemaTypes/post.ts:205 | `a \|\| fallback` keeps a non-empty string and replaces an empty one |
| StudioPost.RequireWhenPublished | studio-jeremiah.dev/schemaTypes/post.ts:9-22 | an unpublished document passes. A published one needs a non-empty array, a string with a non-white-space character, or any other truthy value. A failure carries the given message |
| StudioPost.SkipNonWord | studio-jeremiah.dev/schemaTypes/post.ts:53 | a suffix starting with a word character or empty, strictly shorter when the input starts with a non-word character |
| StudioPost.CollapseRuns | studio-jeremiah.dev/schemaTypes/post.ts:53 | the output has only word characters and `-`, never `--`, and no capitals when the input has none |
| StudioPost.CollapseKeepsWords | studio-jeremiah.dev/schemaTypes/post.ts:53 | the collapsing step keeps every word character of its input, in order |
| StudioPost.CollapseDashCount | studio-jeremiah.dev/schemaTypes/post.ts:53 | the collapsing step writes exactly one `-` per maximal run of non-word characters |
| StudioPost.TrimDashStart | studio-jeremiah.dev/schemaTypes/post.ts:54 | the leading `-`s and only those are dropped |
| StudioPost.TrimDashEnd | studio-jeremiah.dev/schemaTypes/post.ts:54 | the trailing `-`s and only those are dropped |
| StudioPost.Slugify | studio-jeremiah.dev/schemaTypes/post.ts:49-54 | the slug has only `[a-z0-9_-]`, never starts or ends with `-` and never holds `--`, and its word characters are those of the lower-cased input, in order |
| StudioPost.SlugKeepsWords | studio-jeremiah.dev/schemaTypes/post.ts:50-54 | trimming, collapsing and stripping the end `-`s keep every word character, in order |
| StudioPost.SlugifyExample | studio-jeremiah.dev/schemaTypes/post.ts:49-54 | `slugify("Hello,  World!")` is `hello-world` |
| StudioPost.TrimKeepsNoUpper | studio-jeremiah.dev/schemaTypes/post.ts:51-52 | lower-cased and trimmed text has no ASCII capital |
| StudioPost.StrippedIsSlug | studio-jeremiah.dev/schemaTypes/post.ts:53-54 | stripping the `-`s at both ends of collapsed lower-case text leaves a slug |
| StudioPost.SlugFixpoint | studio-jeremiah.dev/schemaTypes/post.ts:49-54 | `slugify` leaves a slug unchanged |
| StudioPost.CollapseFixpoint | studio-jeremiah.dev/schemaTypes/post.ts:53 | the collapsing step leaves word characters with single `-`s unchanged |
| StudioPost.SlugifyIdempotent | studio-jeremiah.dev/schemaTypes/post.ts:49-54 | `slugify(slugify(s)) == slugify(s)` |
| StudioPost.ValidateYouTubeUrl | studio-jeremiah.dev/schemaTypes/post.ts:113-135 | an empty link passes, and any refusal is one of the three messages |
| StudioPost.ValidatorVerdicts | studio-jeremiah.dev/schemaTypes/post.ts:114-134 | "Enter a valid URL." when the link does not parse, then "Use a valid YouTube URL." for a host not allowed, then the playlist message exactly for a playlist on an allowed host. A non-empty link passes exactly when it parses, its host is allowed and it is not a playlist |
| StudioPost.ExtractableLinkIsValid | studio-jeremiah.dev/schemaTypes/post.ts:113-135 | every link the current extractor takes an id from passes the validator |
| StudioPost.PostSubtitleAsWritten | studio-jeremiah.dev/schemaTypes/post.ts:207 | the subtitle as written: the date, then `Â·`, then `/blog/` + slug when there is a slug, and the date alone otherwise |
| StudioPost.PostSubtitle | studio-jeremiah.dev/schemaTypes/post.ts:207 | the subtitle is the date, then ` · `, then `/blog/` + slug when there is a slug, and the date alone otherwise |
| StudioPost.MisencodedSeparatorShows | studio-jeremiah.dev/schemaTypes/post.ts:207 | the subtitle as written shows `Â` where the middle dot belongs |
| StudioPost.PostPreview | studio-jeremiah.dev/schemaTypes/post.ts:196-209 | the title or "Untitled post", and the subtitle built from the formatted date or "Draft" and the slug, with the corrected ` · ` separator |
| StudioSong.FormatDuration | studio-jeremiah.dev/schemaTypes/song.ts:3-10 | a missing, zero or negative duration gives `0:00`. Otherwise the result is digits, `:` and two digits worth less than 60 |
| StudioSong.DurationRoundTrip | studio-jeremiah.dev/schemaTypes/song.ts:7-9 | reading minutes times 60 plus seconds back from `m:ss` gives the duration |
| StudioSong.SongPreview | studio-jeremiah.dev/schemaTypes/song.ts:65-70 | the title or "Untitled song"; the subtitle is the artist or "Unknown artist", ` · `, and the formatted duration |
| StudioTodo.RequireWhenDone | studio-jeremiah.dev/schemaTypes/todo.ts:9-15 | a document not in status "done" passes. A done one passes exactly when the value is truthy, and otherwise carries the message |
| StudioTodo.ReplaceFirstUnderscore | studio-jeremiah.dev/schemaTypes/todo.ts:83 | `replace('_', ' ')` changes only the first `_` into a space |
| StudioTodo.StatusLabel | studio-jeremiah.dev/schemaTypes/todo.ts:83 | a missing status shows "todo", and otherwise the status with its first `_` replaced |
| StudioTodo.TodoPreview | studio-jeremiah.dev/schemaTypes/todo.ts:82-96 | the title or "Untitled todo"; the subtitle is the status label, ` · `, the priority or "medium", ` · `, and the date label |
| StudioBlock.CodeSubtitle | studio-jeremiah.dev/schemaTypes/blockContent.ts:138 | no code gives "No code provided yet", and code gives a subtitle ending in " lines" |
| StudioBlock.CodeLineCount | studio-jeremiah.dev/schemaTypes/blockContent.ts:138 | the number before " lines" is the number of line breaks plus one, so at least 1 |
| StudioBlock.CodePreview | studio-jeremiah.dev/schemaTypes/blockContent.ts:135-140 | the title, or "Code (<language>)" with a missing language read as "plaintext"; the subtitle is the code subtitle |
| ActivityHeatmap.GetColor | app/components/activity-heatmap.tsx:58-64 | levels 0 to 3 get their four colours, and every other number gets `bg-blue-400` |
| ActivityHeatmap.LegendColorsDistinct | app/components/activity-heatmap.tsx:118-121 | the five legend levels have five different colours and cover every level a day can have |
| ActivityHeatmap.SliceEnd | app/components/activity-heatmap.tsx:36 | `slice(0, count)` of a non-negative count ends at min(count, length) |
| ActivityHeatmap.TasksForCount | app/components/activity-heatmap.tsx:16-37 | level 0 gives no tasks. Otherwise the first min(count, 12) names of the shuffled pool are given, in shuffled order |
| ActivityHeatmap.TaskPoolDistinct | app/components/activity-heatmap.tsx:17-30 | the twelve sample names are pairwise different |
| ActivityHeatmap.TasksDistinct | app/components/activity-heatmap.tsx:32-36 | the tasks for a level are pairwise different names from the pool |
| ActivityHeatmap.Level | app/components/activity-heatmap.tsx:48 | `Math.floor(Math.random() * 5)` lies in 0..4 |
| ActivityHeatmap.GenerateHeatmapData | app/components/activity-heatmap.tsx:40-54 | 140 entries, oldest first, day i of the series dated today - 139 + i, the last dated today, each level in 0..4 |
| ActivityHeatmap.GroupWeeks | app/components/activity-heatmap.tsx:67-70 | the loop pushing `slice(i, i + 7)` produces the weeks of the series |
| ActivityHeatmap.WeeksFlatten | app/components/activity-heatmap.tsx:67-70 | putting the weeks back together gives the series, in order |
| ActivityHeatmap.WeeksSizes | app/components/activity-heatmap.tsx:67-70 | there are ceil(n / 7) weeks, every week but the last has 7 days, and the last has 1 to 7 |
| ActivityHeatmap.TwentyWeeks | app/components/activity-heatmap.tsx:39-70 | the 140 generated days make 20 full weeks |
| PreviewRoute.ProductionSecret | app/api/preview/route.ts:12-15 | in production the secret passes exactly when it is non-empty and equals the expected secret |
| PreviewRoute.DevelopmentSecret | app/api/preview/route.ts:16-18 | outside production the answer is 401 exactly when both secrets are non-empty and differ, so a missing secret passes |
| PreviewRoute.ProductionIsStricter | app/api/preview/route.ts:12-18 | a secret refused outside production is refused in production too |
| PreviewRoute.TargetPath | app/api/preview/route.ts:8-20 | an empty or missing slug leads to `/blog`, and any other to `/blog/` + slug |
| PreviewRoute.TargetPathInjective | app/api/preview/route.ts:20 | different slugs lead to different paths |
| PreviewRoute.DecisionOrder | app/api/preview/route.ts:12-34 | a refused secret gives 401 whether or not the post exists. Then a non-empty slug without a post gives 404. The handler redirects to the target path exactly in the remaining cases |
| PreviewRoute.PreviewSession.constructor | app/api/preview/route.ts:29-30 | a new session starts with draft mode off |
| PreviewRoute.PreviewSession.Get | app/api/preview/route.ts:5-35 | the handler answers as the decision says. It turns draft mode on when it redirects, and a 401 or 404 leaves the flag as it was |

## Left out

- The JavaScript `Date` and `URL` parsers are inputs. A completion time is
  an already parsed `Option<int>`, where `None` is NaN. The URL parser is a
  partial function the callers pass in. Percent-decoding of query names and
  values is not modelled, because video ids contain no `%`.
- `toLocaleDateString` and `Intl.DateTimeFormat` depend on the locale. They
  are a function parameter (`format`) wherever a date label is shown.
- `toLowerCase` in `slugify` is modelled on ASCII letters only. Non-ASCII
  case mapping (including letters such as U+212A KELVIN SIGN that lower to
  ASCII) is not modelled.
- TodoHeatmap.Weight: `priorityWeights[priority]` also finds inherited
  object keys such as `constructor`. The model gives every priority other
  than low, medium and high the weight 1.
- StudioSong.FormatDuration: durations are whole seconds on unbounded
  integers. Fractional and NaN durations (`Math.floor` of a non-integer)
  are not modelled, and neither is the width of a JavaScript number: from
  2^53 seconds on `seconds / 60` rounds before `Math.floor`, and from 1e21
  minutes on the minutes print in exponent form (`1e+21:00`).
- StudioSong.DurationRoundTrip: holds on the model's unbounded integers;
  for the source's numbers it holds only below 2^53 seconds, where the
  division is exact.
- StudioValues.Truthy: JavaScript numbers are integers here, so NaN and
  fractions are not modelled.
- TodoHeatmap.BuildHeatmapDays: `today` must be a valid `Date` whose window
  starts within the `Date` range. The source's default `new Date()` is the
  caller's clock and is passed in. The buckets and the window use the
  corrected definitions of the Findings: the whole date as the key
  (`DayKey`) and the start of today's UTC day as the window's end
  (`DayStart`). The source's keys collide outside the years 0000..9999, and
  in the years 0..99 its window ends 1900 years later.
- StudioPost.PostPreview: the subtitle uses the corrected ` · ` separator
  of `PostSubtitle`; the source's `Â·` is `PostSubtitleAsWritten`.
- StudioPost.Slugify: the model proves which word characters the slug
  keeps and that the collapsing step writes one `-` per run of non-word
  characters, but not which of those `-`s survive the stripping at both
  ends.
- `HEATMAP_RANGE_DAYS` and the CMS queries that load the todos are not part
  of this model. The window length is a parameter.
- ActivityHeatmap.GenerateHeatmapData: `setDate(getDate() - i)` works in
  local time. The model steps back whole days on a day number, so a
  daylight-saving change is not modelled.
- `Math.random()` is given as one real in [0, 1) per day. The random-comparator
  `sort` is given as the permutation it produced, so its bias is not modelled.
- PreviewRoute.PreviewSession.Get: the post lookup (`getPostBySlug`) is a
  boolean input, and `NODE_ENV` and `SANITY_PREVIEW_SECRET` are parameters.
  The redirect is modelled by its path: the absolute URL made against the
  request URL and the 307 status are not modelled. `new URL(targetPath,
  request.url)` also removes dot segments, percent-encodes characters such
  as spaces, and reads a `?` or `#` in the slug as the start of a query or
  fragment, so the redirect's path is `/blog/` + slug only for plain slugs
  such as `[a-z0-9_-]*`.
- `app/api/exit-preview/route.ts` is not part of this model. It only turns
  draft mode off and repeats the path rule of preview route line 20.
- The React rendering, the CSS classes other than the tile colours, and the
  Sanity rule chains (`required`, `min`, `uri`) are not modelled.

## Findings

| source | as written | input that shows it | evidently intended | confidence | as-written member | corrected member |
|---|---|---|---|---|---|---|
| app/lib/todo-heatmap.ts:16 | `toISOString().slice(0, 10)` keeps ten characters, but from year 10000 on (and before year 0) the year field has seven, so the key is `+YYYYYY-MM` and drops the day | 10000-01-01 and 10000-01-02 (time values 2932897 × 86400000 and 2932898 × 86400000 ms) both get the key `+010000-01`, so their todos share one bucket | the whole date part as the key, one key per day | high (not executed) | CivilCalendar.ExtendedYearKeysCollide | CivilCalendar.DayKeyInjective |
| studio-jeremiah.dev/schemaTypes/post.ts:207 | the subtitle separator is `Â·` (U+00C2 U+00B7), the UTF-8 bytes of `·` read as Latin-1 | any post with a slug: the subtitle shows `Â` before the middle dot | ` · `, as song.ts:68 and todo.ts:94 use | high (not executed) | StudioPost.MisencodedSeparatorShows | StudioPost.PostSubtitle |
| app/lib/todo-heatmap.ts:18-19 | `toUtcMidnight` rebuilds the day with `Date.UTC(year, month, date)`, and `Date.UTC` reads a year from 0 to 99 as 1900 to 1999 | today = 0050-06-15 (time value -60575040000000): the window ends on 1950-06-15 | the start of today's UTC day | high (not executed) | CivilCalendar.TwoDigitYearMidnight | CivilCalendar.DayStart |
