# MediaElch: custom TV episode scrape job and Discogs field assignment

This project models two parts of MediaElch's scrapers in Dafny and proves
properties of the model.

- **The custom TV episode scrape job.**
  - `CustomEpisodeScrapeJob` loads one episode with the user's per-field choice of provider.
  - TMDb is always loaded first. IMDb is loaded next when the episode has an IMDb id and IMDb is chosen for some show detail.
  - Each provider is asked only for the requested details that are assigned to it, in the locale configured for it.
  - Each provider's result is merged into the job's episode.
  - A load counter decides when `sigFinished` is emitted.
- **The Discogs music scraper's field assignment.**
  - `Discogs::trim` normalises whitespace.
  - `parseAndAssignArtist` and `parseAndAssignAlbum` write an artist's name, biography and discography, and an album's artist, title, genres, styles and year.
  - A field is written only when it is requested and its pattern matched.

Module layout:

- `option.dfy` holds `Optional`, the `Option` datatype.
- `custom_episode_config.dfy` holds `CustomEpisodeConfig`, the pure part of the episode job:
  - `configFor`;
  - `localeFor`;
  - the TMDb start config;
  - the sub-job a scraper gets;
  - how details are merged.
- `custom_episode_scrape_job.dfy` holds `CustomEpisodeScrapeJob`, the job as a class.
  - Its fields are the episode, the load counter, the running TMDb job, the running sub-jobs and the count of `sigFinished` emissions.
  - The job's asynchronous completions are methods the caller may call in any order: `OnTmdbLoaded`, and `SubJobFinished(i, …)` for any running sub-job.
  - The class invariant `Valid()` and the ghost measure `Outstanding()` (one step per pending completion) give the theorem `FinishedExactlyOnce`. It says that `sigFinished` is emitted at most once, and that it has been emitted exactly when TMDb has loaded and every started sub-job has finished.
- `discogs_trim.dfy` holds `DiscogsTrim`: `trim` and its properties.
- `discogs.dfy` holds `Discogs`:
  - the `Artist` and `Album` classes, with the fields the scraper writes;
  - the capture inputs;
  - the specification functions;
  - the two `parseAndAssign*` methods and their loops.

Whitespace in `trim` follows the code.
- The replacement uses `QRegularExpression("\\s\\s+")` without `UseUnicodePropertiesOption`, so its `\s` matches only ASCII whitespace (`IsRegexSpace`).
- `QString::trimmed` strips every character for which `QChar::isSpace` holds: ASCII whitespace, U+0085, U+00A0 and the Unicode separators (`IsSpace`).
- So a run of, for example, U+00A0 inside the text is not collapsed (`OtherCharKept`). It is still removed at the ends.

## Model

| member | source | states |
|---|---|---|
| CustomEpisodeConfig.KeysWithValue | src/scrapers/tv_show/custom/CustomEpisodeScrapeJob.cpp:109 | `QMap::keys(value)`: a key is in the result exactly when it is in the map with that value |
| CustomEpisodeConfig.DetailsFor | src/scrapers/tv_show/custom/CustomEpisodeScrapeJob.cpp:109-111 | the details for a scraper are a subset of the requested ones, and a detail is among them exactly when it is requested and assigned to that scraper |
| CustomEpisodeConfig.LocaleFor | src/scrapers/tv_show/custom/CustomEpisodeScrapeJob.cpp:116-130 | English for an unknown scraper, English for a scraper without settings, else the configured language, else the scraper's default locale |
| CustomEpisodeConfig.ConfigFor | src/scrapers/tv_show/custom/CustomEpisodeScrapeJob.cpp:103-114 | the result carries the given identifier and the scraper's locale; its details are a subset of the job's, and a detail is in them exactly when the job requests it and it is assigned to the scraper |
| CustomEpisodeConfig.TmdbStartConfig | src/scrapers/tv_show/custom/CustomEpisodeScrapeJob.cpp:28-36 | the TMDb config's detail set is never empty; it is `configFor(TMDb)` when that has details, and otherwise it has the single detail `Invalid`; identifier and locale are TMDb's |
| CustomEpisodeConfig.SubJobFor | src/scrapers/tv_show/custom/CustomEpisodeScrapeJob.cpp:66-80 | a sub-job is started exactly when the scraper's config has details and the scraper is known, and then it runs that scraper with `configFor`'s config |
| CustomEpisodeConfig.CopyDetails | src/scrapers/tv_show/custom/CustomEpisodeScrapeJob.cpp:45 | after the merge, each detail of the config other than `Invalid` that the result has takes the result's value; every other value is kept; no other key appears; with a non-empty detail set the IMDb id is the result's when it has one, and with an empty set nothing is copied, not even the ids |
| CustomEpisodeConfig.DetailsForDisjoint | src/scrapers/tv_show/custom/CustomEpisodeScrapeJob.cpp:109-111 | two different scrapers are never asked for the same detail |
| CustomEpisodeConfig.DetailsForCover | src/scrapers/tv_show/custom/CustomEpisodeScrapeJob.cpp:109-111 | a requested detail with an assignment is asked of a scraper exactly when that scraper is the assigned one |
| CustomEpisodeConfig.DetailsForUnion | src/scrapers/tv_show/custom/CustomEpisodeScrapeJob.cpp:109-111 | together, the assigned scrapers are asked for exactly the requested details that have an assignment |
| CustomEpisodeConfig.CopyDetailsCommute | src/scrapers/tv_show/custom/CustomEpisodeScrapeJob.cpp:81-86 | merging two results with disjoint detail sets gives the same values in either order, so the order in which sub-jobs finish does not matter |
| CustomEpisodeConfig.CopyNoDetails | src/scrapers/tv_show/custom/CustomEpisodeScrapeJob.cpp:31-34 | merging with an empty detail set changes nothing, not even the IMDb id |
| CustomEpisodeConfig.InvalidSentinelCopiesIds | src/scrapers/tv_show/custom/CustomEpisodeScrapeJob.cpp:30-36 | why `start` inserts `Invalid`: a merge for `{Invalid}` copies no value but takes the result's IMDb id, which a merge for the empty set does not |
| CustomEpisodeConfig.LoadsImdb | src/scrapers/tv_show/custom/CustomEpisodeScrapeJob.cpp:48-49 | IMDb is loaded exactly when the episode has a valid IMDb id and some show detail is assigned to IMDb |
| CustomEpisodeScrapeJob.CustomEpisodeScrapeJob.FinishedExactlyOnce | src/scrapers/tv_show/custom/CustomEpisodeScrapeJob.cpp:93-101 | in every state reached from the constructor through `Start`, `OnTmdbLoaded` and `SubJobFinished`, `sigFinished` has been emitted at most once, and it has been emitted exactly when the job was started, TMDb has loaded and no started sub-job is still running |
| CustomEpisodeScrapeJob.CustomEpisodeScrapeJob.constructor | src/scrapers/tv_show/custom/CustomEpisodeScrapeJob.cpp:17-22 | a new job keeps its configs, has not started, runs nothing and has not emitted `sigFinished` |
| CustomEpisodeScrapeJob.CustomEpisodeScrapeJob.Start | src/scrapers/tv_show/custom/CustomEpisodeScrapeJob.cpp:24-41 | `start` runs the TMDb job with `TmdbStartConfig`, whose detail set is not empty; the episode and the counter are unchanged; it keeps the invariant and takes one step |
| CustomEpisodeScrapeJob.CustomEpisodeScrapeJob.OnTmdbLoaded | src/scrapers/tv_show/custom/CustomEpisodeScrapeJob.cpp:43-62 | the TMDb result is merged for the TMDb job's details; the IMDb sub-job is started only under the guard (valid IMDb id, and IMDb among the show-detail scrapers); the counter equals the number of running sub-jobs; `sigFinished` is emitted at once exactly when none was started |
| CustomEpisodeScrapeJob.CustomEpisodeScrapeJob.ImdbSubJobs | src/scrapers/tv_show/custom/CustomEpisodeScrapeJob.cpp:57-59 | at most one sub-job, on IMDb, with a non-empty detail set |
| CustomEpisodeScrapeJob.CustomEpisodeScrapeJob.LoadWithScraper | src/scrapers/tv_show/custom/CustomEpisodeScrapeJob.cpp:64-91 | every path gives up exactly one unit of the counter: with no details or an unknown scraper, the counter is decreased at once and `sigFinished` is emitted when it reaches 0 or less; otherwise the sub-job is started and the counter is left for it |
| CustomEpisodeScrapeJob.CustomEpisodeScrapeJob.SubJobFinished | src/scrapers/tv_show/custom/CustomEpisodeScrapeJob.cpp:81-89 | a finished sub-job's result is merged for its own details; the sub-job is removed; the counter is decreased by one; `sigFinished` is emitted exactly when it was the last one; the invariant is kept |
| CustomEpisodeScrapeJob.CustomEpisodeScrapeJob.DecreaseCounterAndCheckIfFinished | src/scrapers/tv_show/custom/CustomEpisodeScrapeJob.cpp:93-101 | the counter is decreased by one, and `sigFinished` is emitted exactly when the new counter is 0 or less |
| DiscogsTrim.IsRegexSpace | src/scrapers/music/Discogs.cpp:136 | `\s` of the pattern matches exactly space, tab, line feed, vertical tab, form feed and carriage return |
| DiscogsTrim.IsSpace | src/scrapers/music/Discogs.cpp:136 | every character `\s` matches is also stripped by `trimmed` |
| DiscogsTrim.IsSpaceExactly | src/scrapers/music/Discogs.cpp:136 | `trimmed` strips exactly the 25 characters of `QtSpaces` (`QChar::isSpace`) |
| DiscogsTrim.Trim | src/scrapers/music/Discogs.cpp:134-137 | `trim` leaves no whitespace at either end and never makes the text longer |
| DiscogsTrim.LeadingSpaces | src/scrapers/music/Discogs.cpp:136 | the leading whitespace run that `trimmed` strips: all of it is whitespace, and the character after it is not |
| DiscogsTrim.TrailingSpaces | src/scrapers/music/Discogs.cpp:136 | the trailing whitespace run that `trimmed` strips: all of it is whitespace, and the character before it is not |
| DiscogsTrim.RegexRun | src/scrapers/music/Discogs.cpp:136 | the run of `\s` characters at the start: all of it is `\s`, and the character after it is not |
| DiscogsTrim.CollapseRuns | src/scrapers/music/Discogs.cpp:136 | replacing `\s\s+` by one space never makes the text longer |
| DiscogsTrim.Trimmed | src/scrapers/music/Discogs.cpp:136 | `QString::trimmed` leaves no whitespace at either end and never makes the text longer |
| DiscogsTrim.TrimmedStripsEdges | src/scrapers/music/Discogs.cpp:136 | `trimmed` returns a slice of its input with only whitespace before it and only whitespace after it, so nothing inside is removed |
| DiscogsTrim.TrimKeepsLoneSpace | src/scrapers/music/Discogs.cpp:134-137 | a single whitespace character between two non-empty outputs of `trim` (text with no whitespace at its ends and no two adjacent `\s` characters, as `TrimFixedPoint` characterises them) survives `trim` |
| DiscogsTrim.TrimProperties | src/scrapers/music/Discogs.cpp:134-137 | `trim`'s result has no whitespace at its ends and no two adjacent `\s` characters; it keeps the input's non-whitespace characters in order; it is never longer than its input |
| DiscogsTrim.CollapseShape | src/scrapers/music/Discogs.cpp:136 | after the replacement no two `\s` characters are adjacent; it is empty only for empty input, and starts with `\s` exactly when the input does |
| DiscogsTrim.NonSpaceCollapse | src/scrapers/music/Discogs.cpp:136 | the replacement keeps the non-whitespace characters in order |
| DiscogsTrim.NonSpaceTrimmed | src/scrapers/music/Discogs.cpp:136 | `trimmed` keeps the non-whitespace characters in order |
| DiscogsTrim.CollapseNoAdjacent | src/scrapers/music/Discogs.cpp:136 | the replacement changes nothing when `\s\s+` does not match |
| DiscogsTrim.TrimmedNoEdges | src/scrapers/music/Discogs.cpp:136 | `trimmed` changes nothing when there is no whitespace at the ends |
| DiscogsTrim.TrimIdempotent | src/scrapers/music/Discogs.cpp:134-137 | `trim(trim(x)) == trim(x)` |
| DiscogsTrim.TrimFixedPoint | src/scrapers/music/Discogs.cpp:134-137 | `trim(x) == x` exactly when `x` has no whitespace at its ends and no two adjacent `\s` characters |
| DiscogsTrim.CollapseAppend | src/scrapers/music/Discogs.cpp:136 | the replacement is local: it can be done on two pieces separately when the cut does not split a `\s` run |
| DiscogsTrim.CollapseRunHead | src/scrapers/music/Discogs.cpp:136 | a maximal `\s` run at the front becomes one character (`Head`) followed by the replacement of the rest |
| DiscogsTrim.RunCollapses | src/scrapers/music/Discogs.cpp:136 | a maximal `\s` run inside the text becomes one character, and the text on either side is replaced independently |
| DiscogsTrim.RunBecomesOneSpace | src/scrapers/music/Discogs.cpp:136 | a maximal run of two or more `\s` characters becomes a single space |
| DiscogsTrim.LoneSpaceKept | src/scrapers/music/Discogs.cpp:136 | a lone `\s` character between other characters is kept unchanged |
| DiscogsTrim.OtherCharKept | src/scrapers/music/Discogs.cpp:136 | a character that `\s` does not match (including U+00A0 and the other non-ASCII whitespace) stays in place wherever it stands |
| Discogs.TrimmedOrEmpty | src/scrapers/music/Discogs.cpp:53-63 | a row field is the trimmed capture when its pattern matched and empty otherwise; it has no whitespace at its ends and no two adjacent `\s` characters |
| Discogs.RowAlbum | src/scrapers/music/Discogs.cpp:53-63 | a row's title and year are the trimmed captures, or empty when their pattern did not match |
| Discogs.Kept | src/scrapers/music/Discogs.cpp:65 | a row is dropped exactly when both its title and its year are empty |
| Discogs.DiscographyOf | src/scrapers/music/Discogs.cpp:44-68 | the entries from a table have at most one per row |
| Discogs.TrimAll | src/scrapers/music/Discogs.cpp:103-105 | one trimmed string per capture |
| Discogs.TrimAllAt | src/scrapers/music/Discogs.cpp:103-105 | the `k`-th appended genre or style is the `k`-th capture, trimmed |
| Discogs.ToInt | src/scrapers/music/Discogs.cpp:129 | the year is a 32-bit value |
| Discogs.DigitsValueBound | src/scrapers/music/Discogs.cpp:129 | the value of `k` decimal digits is below `10^k` |
| Discogs.ToIntDigits | src/scrapers/music/Discogs.cpp:129 | an optional sign followed by decimal digits whose value fits in 32 bits (down to -2147483648) converts to that value, negated for `-` |
| Discogs.ToIntOverflow | src/scrapers/music/Discogs.cpp:129 | a signed decimal outside the 32-bit range converts to 0 |
| Discogs.ToIntRejects | src/scrapers/music/Discogs.cpp:129 | text with a character that is not a digit (after an optional leading sign) converts to 0 |
| Discogs.DiscographyEntries | src/scrapers/music/Discogs.cpp:53-67 | every appended entry has a non-empty title or a non-empty year, and neither has whitespace at its ends |
| Discogs.DiscographyAppend | src/scrapers/music/Discogs.cpp:44-68 | rows are appended in table order: the entries for two consecutive parts of the table are those of the first part followed by those of the second |
| Discogs.DiscographyMember | src/scrapers/music/Discogs.cpp:53-67 | an entry is appended exactly when some row produces it and it has a title or a year |
| Discogs.SingleRow | src/scrapers/music/Discogs.cpp:53-67 | a row whose trimmed title and year are both empty adds nothing; any other row adds exactly its entry |
| Discogs.ParseAndAssignArtist | src/scrapers/music/Discogs.cpp:16-71 | name and biography become the trimmed capture when requested and matched, and are unchanged otherwise; the discography gets the table's entries appended, in order, when requested and the table matched, and is unchanged otherwise |
| Discogs.AppendDiscography | src/scrapers/music/Discogs.cpp:44-68 | the discography loop appends exactly `DiscographyOf(rows)` to the list |
| Discogs.AppendTrimmed | src/scrapers/music/Discogs.cpp:103-105 | the `addGenre`/`addStyle` loop appends exactly the trimmed captures, in match order |
| Discogs.ParseAndAssignAlbum | src/scrapers/music/Discogs.cpp:73-132 | artist, title and year are overwritten (year with `toInt` of the trimmed capture) only when requested and matched; genres and styles get their trimmed captures appended in order only when requested and matched; every other field is unchanged |

## Left out

- Threads, `QMutexLocker`, the Qt signal/slot wiring and `deleteLater` are not modelled. Completions are sequential method calls in any order, and `sigFinished` is a counter of emissions.
- The TMDb and IMDb episode jobs themselves are not modelled (their loading, network and parsing). A finished job is represented by the `Episode` result it hands back.
- `copyDetailsToEpisode`: its body in `ShowMerger` is not part of this model. `CopyDetails` assumes it copies the values of the sub-job's details that the result has, except the `Invalid` sentinel, which carries none. It also copies the IMDb id when the result has one, but only for a non-empty detail set: with an empty set nothing is copied, not even the ids, as the comment at `start` says.
- `Settings::instance()->scraperSettings` is an input map. `ScraperSettings::language(default)` is assumed to return the configured language, or the default when none is configured.
- `m_customConfig.scraperForId` is the `scrapers` map of known scraper ids. `TvScraper::meta().defaultLocale` is the only scraper meta data used.
- Episode and show details are named by a key string, with `Invalid` as its own constructor. The concrete `EpisodeScraperInfo`/`ShowScraperInfo` enumerations are not modelled.
- `ImdbId::isValid` is modelled by the IMDb id being present (`Option`).
- The scraper ids `TmdbTv::ID` and `ImdbTv::ID` are modelled as the strings "tmdbtv" and "imdbtv".
- `EpisodeScrapeJob::Config` is modelled with identifier, locale and details only. So `ConfigFor`'s "every other field is kept" holds trivially.
- The value of `m_loadCounter` before `onTmdbLoaded` is declared in the header, which is not part of this model. The invariant does not constrain it then, and no code reads it before it is set to 1.
- CustomEpisodeScrapeJob.CustomEpisodeScrapeJob.Start: a TMDb job that finishes synchronously inside `tmdbJob->start()` is not modelled. `OnTmdbLoaded` is always a separate step after `Start`.
- CustomEpisodeScrapeJob.CustomEpisodeScrapeJob.OnTmdbLoaded: the intermediate counter value (1, plus 1 for IMDb) is not stated. Only the counter after the call is stated, which equals the number of running sub-jobs.
- The `QRegularExpression` engine and the HTML patterns are not modelled. Every capture is an input, `None` when the pattern did not match. Repeated matches (discography rows, genre and style links) are a sequence of captures in page order.
- `UniversalMusicScraper::shouldLoad` is not modelled. `load` is the set of details for which it holds; its dependence on the artist or album object is not captured.
- Discogs.ToInt: approximates `QString::toInt` as an optional sign followed by decimal digits, in 32-bit range, and 0 otherwise. Qt's own handling of surrounding whitespace and locale is not modelled; the input is always trimmed first.
- The album detail `MusicScraperInfo::Artist` is named `ArtistName`, because `Artist` is the artist class.
- The `Artist` and `Album` classes hold only the fields the Discogs scraper writes. Other fields, and the setters' change signals, are not modelled.
- Whitespace classes are modelled on code points. QString's UTF-16 surrogate pairs are not modelled; no whitespace character lies outside the Basic Multilingual Plane.
