# Movie search back end: a Dafny model

This project models the search and data-maintenance core of a Korean movie-review back end. It covers:

- the **normaliser** (`kor-norm`). It produces the three comparison forms of a text:
  - the folded form (NFKC, lower case, whitespace collapsed);
  - the full compatibility-jamo stream;
  - the initial-consonant string.

  It also provides the Hangul test and the regular-expression escaping used for "starts with" queries.
- the **autocomplete service**. It runs one capped prefix query per enabled projection and merges the results by (key type, display). It then re-ranks the merged candidates in Fuse stages, turns Fuse scores into final scores with prefix bonuses, and backfills from the candidates by best match source. Finally it sorts by (score, source rank, key length) and truncates to `limit`;
- the **search-key index build** (`buildFromMovies`). It collects the title, director and cast names of every movie, groups the ids of the movies that carry each key, and applies one upsert per key (`$set` of the forms, `$addToSet` of the ids);
- the **request validators** for registration and login, and input sanitising;
- the **TMDB transform** (`getAgeRating`, `transformMovieData`). It maps Korean and US certifications to the service's age ratings and shapes a movie document;
- the **duplicate-movie clean-up**. Movies are grouped by (title, release date, running time). Groups larger than one keep their earliest-created movie and delete the rest;
- the **rating recount**. Every movie's `rating_total` and `review_count` become the sum and number of its reviews.

The files and what they model:

| Dafny file | source file |
|---|---|
| `text.dfy` | whitespace operations shared by the others |
| `kor_norm.dfy` | `kor-norm.js` |
| `search_key.dfy` | SearchKey schema and prefix query |
| `search_service.dfy` | `search.service.js` |
| `sorting.dfy` | insertion sort on lexicographic integer keys |
| `build_search_keys.dfy` | `build-search-keys.js` |
| `validation.dfy` | `validation.js` |
| `crawl_movies.dfy` | `crawlMovies.js` |
| `remove_duplicates.dfy` | `removeDuplicateMovies.js` |
| `update_ratings.dfy` | `update-ratings.js` |

Text is `seq<char>`. The database is a sequence of records in natural order. Library calls the model cannot see are parameters:

- `KorNorm.Lib` carries NFKC plus lowercasing (`fold`) and es-hangul's `getChoseong` (`choseong`; `None` stands for a thrown exception).
- The Fuse index is a `FuseOracle` function from (query, candidates, limit) to hits. `FuseSound` states the only things the model assumes of it: hits are candidates, and scores lie in [0, 1].
- es-hangul's `disassemble` is modelled by the arithmetic syllable decomposition of section 3.12 of the Unicode Standard.

Scores are fixed-point integers in units of 0.0001: 0.6 is 6000 and the 0.12 bonus is 1200.

JavaScript values the validators inspect are `Undefined | Null | Str(s)`:

- A value is truthy exactly when it is a non-empty string.
- A regular-expression test of an absent value sees the text "undefined" or "null", as `RegExp.prototype.test` does.

## Model

| member | source | states |
|---|---|---|
| Text.Squash | src/services/kor-norm.js:10-11 | trim plus whitespace-run collapse gives text with no edge whitespace and no two adjacent whitespace characters; it has exactly the words (maximal non-whitespace runs) of the input, in order; text already in that shape is returned unchanged |
| Text.SquashIsUnwords | src/services/kor-norm.js:10-11 | the result is the input's words joined by single ' ' characters: each whitespace run between two words becomes one space, and edge runs vanish |
| Text.TrimSpec | src/utils/validation.js:141-144 | `trim()` leaves no whitespace at either end, and the result is the input with only a whitespace prefix and a whitespace suffix cut off, so interior whitespace survives; already trimmed text is left alone |
| Text.TrimUnique | src/utils/validation.js:143 | any string with no edge whitespace that is the input less a whitespace prefix and suffix is the trimmed input |
| KorNorm.Norm | src/services/kor-norm.js:5-12 | the normalised text is squashed and has the same words, in order, as the folded input |
| KorNorm.NormJoinsWords | src/services/kor-norm.js:5-12 | the normalised text is the words of the folded input joined by single spaces |
| KorNorm.NormOfNothing | src/services/kor-norm.js:6 | a missing or empty argument normalises to the empty string, given that folding maps "" to "" |
| KorNorm.NormIdempotent | src/services/kor-norm.js:5-12 | normalising already normalised text changes nothing, given three laws of folding (NFKC plus lower-casing): it maps "" to "", folding twice is folding once, and squashing the whitespace of already folded text leaves it folded |
| KorNorm.ComposeDecompose | src/services/kor-norm.js:28 | the decomposition of a precomposed syllable into lead, vowel and optional tail jamo composes back to the same syllable |
| KorNorm.SyllableJamo | src/services/kor-norm.js:35-52 | one syllable maps to between 2 and 5 characters, every one of them a compatibility jamo: complex vowels and final clusters are split into their parts |
| KorNorm.ToJamoFull | src/services/kor-norm.js:16-55 | the jamo form is empty exactly when the normalised input is empty, and it never contains whitespace |
| KorNorm.JamoFromDisassembly | src/services/kor-norm.js:23-32 | an empty input gives "", a failed disassembly returns the normalised input unchanged, and a successful one yields whitespace-free text |
| KorNorm.ToInitials | src/services/kor-norm.js:58-68 | "" for empty input; whitespace-free output; when the library throws, the raw input with whitespace removed |
| KorNorm.IsKoreanQuery | src/services/kor-norm.js:71-76 | true exactly when some character lies in U+1100–11FF, U+3130–318F or U+AC00–D7AF |
| KorNorm.EscapeIsLiteral | src/services/kor-norm.js:79-81 | the escaped text, read as a regular expression, is a literal pattern for exactly the original text |
| KorNorm.LiteralIsEscape | src/services/kor-norm.js:79-81 | conversely, every literal pattern is the escape of the text it matches, so escaping is a bijection onto literal patterns |
| SearchKeyStore.FirstMatches | src/services/search.service.js:105-107 | a capped prefix query returns at most `cap` stored records, all prefix-matching the field; when fewer than `cap` come back, none is missed |
| SearchKeyStore.FindEscaped | src/services/search.service.js:100-107 | a query whose pattern is `^` plus the escaped projection returns exactly the records whose field starts with the projection, up to the cap |
| SearchService.PrefixQueries | src/services/search.service.js:98-108 | every query targets an enabled field with cap `max(50, limit*10)` and an escaped pattern for that field's projection; the fields queried are exactly the enabled ones, each once, in the order normalised, jamo, initials |
| SearchService.MergeIsDedupFirst | src/services/search.service.js:27-34 | merging the result lists with `pushUnique` equals the reference dedup of their concatenation: first copy of each (key type, display) identity kept, order preserved |
| SearchService.DedupFirstSpec | src/services/search.service.js:27-34 | the reference merge keeps exactly one record per (key type, display) identity, loses no identity, and keeps only input records |
| SearchService.Candidates | src/services/search.service.js:104-115 | candidates are distinct by identity, each is a stored record matching an enabled projection, and when the store is smaller than the cap every matching identity is present |
| SearchService.PushFuseUnique | src/services/search.service.js:36-44 | only extends the accumulator, adds hits from the results only, keeps displays distinct, and stops at `need` |
| SearchService.FuseStages | src/services/search.service.js:135-148 | the collected Fuse hits have distinct displays, number at most `limit` (one when `limit` is 0), and each comes from one of the Fuse searches |
| SearchService.ScoreFromFuse | src/services/search.service.js:54-64 | the score is the Fuse score (0.6 if missing) less the sum of the bonuses of every prefix matched, the bonuses stacking, floored at 0 |
| SearchService.RetrievedSourceRank | src/services/search.service.js:46-52 | a retrieved candidate's best source is norm, jamo or initials, and norm whenever it matched on the normalised field |
| SearchService.Backfill | src/services/search.service.js:153-180 | the Fuse-scored items stay as a prefix; only candidates whose display was not yet seen are added, each with its best source's base score plus epsilon; keys stay distinct; the list stops at `limit` or holds every candidate's display; the added items come in (source rank, score, key length) order and none orders after a candidate that was left out |
| SearchService.AppendUnseenOrder | src/services/search.service.js:174-179 | walking a pending list sorted by (source rank, score, key length), the appended items keep that order and no pending item whose key was left out orders before an appended one |
| SearchService.RankAndTruncate | src/services/search.service.js:182-194 | the result has `min(limit, n)` items sorted by (score, source rank, key length), drawn from the input, and no dropped item orders before a kept one |
| SearchService.Autocomplete | src/services/search.service.js:68-201 | at most `limit` suggestions with distinct names in ascending score; an empty normalised query yields nothing and issues no query; every query issued is sound and every enabled field is queried |
| SearchService.AutocompleteSound | src/services/search.service.js:104-194 | every suggestion names a stored record that matches an enabled projection and carries that record's movie ids |
| SearchService.AutocompleteCount | src/services/search.service.js:133-194 | the number of suggestions is the smaller of `limit` and the number of distinct candidate displays |
| SearchService.AutocompleteFindsAll | src/services/search.service.js:98-194 | when the store is below the cap and has no more displays than `limit`, every matching record's display is suggested |
| SearchService.RankCandidatesSpec | src/services/search.service.js:133-194 | ranking a candidate list returns items that carry a candidate's name and ids, `min(limit, distinct displays)` of them |
| Sorting.SortBy | src/services/search.service.js:166-172 | the sort returns a permutation of its input, ordered by the comparator's key |
| Sorting.SortStable | src/services/search.service.js:165-172 | the sort is stable: the elements with any one key value keep their input order, as `Array.prototype.sort` guarantees |
| BuildSearchKeys.MovieKeys | src/services/build-search-keys.js:12-17 | a movie's keys are duplicate-free and are exactly its non-empty title, director and cast names |
| BuildSearchKeys.Collect | src/services/build-search-keys.js:9-23 | the grouping has one entry per key of any movie, and each key's ids are exactly the ids of the movies carrying it |
| BuildSearchKeys.AddToSet | src/services/build-search-keys.js:35 | `$addToSet` with `$each` keeps the old ids as a prefix, holds the union, adds no duplicate, and changes nothing when every id is present |
| BuildSearchKeys.ApplyUpsertSpec | src/services/build-search-keys.js:30-38 | after one upsert the record for the key carries its forms, and its ids are exactly its old ids together with the upsert's; every other record is untouched; the store grows by at most one; no record gains a repeated id |
| BuildSearchKeys.BulkWriteNoDup | src/services/build-search-keys.js:35-41 | a bulk write of upserts never lists a movie id twice in a record |
| BuildSearchKeys.SatisfiedUpsertNoop | src/services/build-search-keys.js:30-38 | an upsert the store already reflects leaves display, norm, initials and movieIds of every record unchanged |
| BuildSearchKeys.Build | src/services/build-search-keys.js:5-43 | the reported count is the number of distinct keys; when no movie has a key (in particular with no movies) no write happens; stored id lists stay free of repeats |
| BuildSearchKeys.BuildCovers | src/services/build-search-keys.js:26-41 | after a build, each key of each movie has a record with that display, its normalised and initials forms, and the movie's id |
| BuildSearchKeys.BuildIdempotent | src/services/build-search-keys.js:26-41 | running the build a second time over the same movies changes no record's display, norm, initials or movieIds |
| BuildSearchKeys.BuildFrame | src/services/build-search-keys.js:26-41 | the build never removes records or ids, and records for displays that are not keys of any movie are untouched |
| Validation.ValidateEmail | src/utils/validation.js:3-6 | accepts exactly the text the pattern `^[^\s@]+@[^\s@]+\.[^\s@]+$` matches, which is exactly: no whitespace, one '@' not at the start, and a '.' after it with at least one character on each side |
| Validation.EmailRegexIsShape | src/utils/validation.js:4 | the pattern reading and the structural reading of the email rule coincide |
| Validation.ValidatePassword | src/utils/validation.js:8-31 | the four messages appear in source order, each exactly when its condition fails: missing or shorter than 8, no lower-case letter, no upper-case letter, no digit |
| Validation.MissingPasswordIssues | src/utils/validation.js:11-25 | an absent password reports too short, no upper case and no digit, but not "no lower case", because the pattern tests the text "undefined" or "null" |
| Validation.ValidateUsername | src/utils/validation.js:33-52 | required exactly when missing or blank; too long exactly when over 20; bad characters exactly when present and not all of `[A-Za-z0-9_]` |
| Validation.UsernameAccepts | src/utils/validation.js:33-52 | a username passes exactly when it is a string of 1 to 20 word characters |
| Validation.ValidateNickname | src/utils/validation.js:54-73 | required exactly when missing or blank; too short exactly when under 2; too long exactly when over 20 |
| Validation.NicknameAccepts | src/utils/validation.js:54-73 | a nickname passes exactly when it is a string of 2 to 20 characters that is not all whitespace |
| Validation.ValidateRegistration | src/utils/validation.js:75-119 | valid exactly when the error map is empty; one email error exactly when the email is missing or malformed, "required" exactly when missing and "invalid" exactly when malformed; username and nickname entries exactly when their validators complain, holding those validators' messages; password entry is the strength issues followed by the confirmation issue |
| Validation.RegistrationAccepts | src/utils/validation.js:75-119 | registration passes exactly when the email is well formed, all three validators accept, and the confirmation is absent or equals the password |
| Validation.ValidateLogin | src/utils/validation.js:121-139 | valid exactly when no error; email errors as in registration, "required" exactly when missing and "invalid" exactly when malformed; a password error exactly when the password is missing or empty |
| Validation.LoginIgnoresStrength | src/utils/validation.js:131-133 | any two present passwords give the same login report, however weak either is |
| Validation.SanitizeInput | src/utils/validation.js:141-144 | non-strings pass through; strings come back trimmed, with only a whitespace prefix and suffix cut off, and already trimmed strings unchanged |
| Validation.SanitizeIdempotent | src/utils/validation.js:141-144 | sanitising twice is sanitising once |
| CrawlMovies.Certification | src/scripts/crawlMovies.js:78-81 | the certification read is the non-empty first release entry of the first result for the country, and none otherwise |
| CrawlMovies.GetAgeRating | src/scripts/crawlMovies.js:76-125 | without a Korean certification the rating is one of ALL, 12, 18, NR; with neither it is NR; "15" only comes from a Korean certification |
| CrawlMovies.AgeRatingTables | src/scripts/crawlMovies.js:83-120 | a Korean certification is mapped by the Korean table or passed through; otherwise a US one is mapped by the US table or to NR |
| CrawlMovies.AgeRatingReadsFirstEntry | src/scripts/crawlMovies.js:79-80 | only the first release entry of each country affects the rating |
| CrawlMovies.AgeRatingFirstCountry | src/scripts/crawlMovies.js:78-103 | once the results hold both a KR and a US entry, appending more results does not change the rating |
| CrawlMovies.ImageUrl | src/scripts/crawlMovies.js:164 | no URL exactly when the path is empty; otherwise the image base followed by the path |
| CrawlMovies.TransformMovie | src/scripts/crawlMovies.js:127-168 | title, overview and release date pass through; categories are the genre names; running time defaults to 0; totals start at 0; at most 10 cast with role fallback and profile image; poster absent exactly when its path is empty, else the image base plus the path; director from the first Director credit, else the placeholder name with no image; trailer absent exactly when no YouTube trailer is listed, else the first one's watch URL; adult exactly when rated 18 |
| CrawlMovies.AdultContentSource | src/scripts/crawlMovies.js:143-144 | a movie is adult content exactly when its Korean certification maps to 18, or when it has none and its US one is R or NC-17 |
| CrawlMovies.CastIgnoresLaterCredits | src/scripts/crawlMovies.js:136 | credits after the tenth never affect the cast |
| CrawlMovies.DirectorChoice | src/scripts/crawlMovies.js:134 | the director is the first crew member whose job is Director |
| RemoveDuplicates.GroupAll | src/scripts/removeDuplicateMovies.js:22-33 | grouping yields one non-empty group per (title, release date, running time), holding exactly that key's movies in store order, and no movie is lost |
| RemoveDuplicates.NoDuplicatesNoDeletion | src/scripts/removeDuplicateMovies.js:41-44 | a store without two movies sharing a key is left as it is |
| RemoveDuplicates.RemovedCount | src/scripts/removeDuplicateMovies.js:48-69 | the number removed is the store size less the number of distinct keys |
| RemoveDuplicates.Remains | src/scripts/removeDuplicateMovies.js:57-69 | a movie stays exactly when its key is unique or it is the first in creation order among its key's movies |
| RemoveDuplicates.OnePerKey | src/scripts/removeDuplicateMovies.js:57-69 | afterwards no two remaining movies share a key |
| RemoveDuplicates.KeysKept | src/scripts/removeDuplicateMovies.js:57-69 | every key present before is still present afterwards |
| RemoveDuplicates.EarliestSurvives | src/scripts/removeDuplicateMovies.js:58-59 | in a duplicate group, the survivor was created no later than any movie with its key and stays in the store |
| UpdateRatings.ReduceIsTotal | update-ratings.js:30 | the `reduce` fold from 0 equals the reference sum of the ratings |
| UpdateRatings.Recount | update-ratings.js:19-36 | a movie's count is its number of reviews and its total their rating sum, zero when there are none; id and title unchanged |
| UpdateRatings.UpdateAllMovieRatings | update-ratings.js:18-40 | every movie is recounted, in order, and none is added or dropped |
| UpdateRatings.ReviewsOfOthers | update-ratings.js:19 | reviews of other movies do not affect a movie's totals |
| UpdateRatings.RecountAdditive | update-ratings.js:19-36 | recounting over two batches of reviews adds their totals and counts |
| UpdateRatings.RecountIgnoresOldTotals | update-ratings.js:22-36 | the stored totals are overwritten, not accumulated, so re-running the recount changes nothing |
| UpdateRatings.AverageInRange | update-ratings.js:31 | with every rating between `lo` and `hi`, the total lies between `count*lo` and `count*hi`, so the logged average stays on the scale |

## Left out

- String lengths count code points, where JavaScript counts UTF-16 units. The two agree on the Basic Multilingual Plane, which holds all Hangul.
- NFKC normalisation, `toLowerCase` and es-hangul's `getChoseong` are parameters of `KorNorm.Lib`, not implementations. es-hangul's `disassemble` is modelled only on the precomposed syllable block, by the Unicode arithmetic. The library's own exceptions become `None`.
- Fuse.js scoring (bitap search, weights, threshold, extended-search syntax) is an oracle. Only membership of its hits and the score range are assumed.
- SearchService.ScoreFromFuse: scores are fixed-point at 0.0001, so `toFixed(4)` rounding of a finer Fuse score is not modelled.
- SearchService.RankAndTruncate: backfill scores are `base + eps` doubles in JavaScript, never rounded, and some sit just above their decimal value (0.1 + 0.0001 is 0.10010000000000001). A Fuse hit rounded to exactly the same four-decimal value (0.1001, say) therefore sorts before that backfill item in the source, while the model sees equal scores and puts the backfill item first by source rank. This tie order is not modelled.
- `limit` is a natural number. A negative, fractional or non-numeric `limit` is not modelled.
- SearchService.FuseStages: with `limit` 0, `pushFuseUnique` still keeps one hit, because its `>=` check runs after the push. The bound is therefore stated as one, not zero. The final slice to `limit` removes that hit.
- The `conds` array (search.service.js:81-95) is built and never used. The `_matchedBy`/`_byNorm`/`_byJamo`/`_byInit` tags (122-130) are written and never read. Neither affects a result, so neither is modelled.
- SearchService.AutocompleteFindsAll: it requires key types without ':'. With a ':' inside a key type, two records can share the merge identity `type::display` while having different displays, and one would be dropped.
- BuildSearchKeys.BuildIdempotent: the SearchKey schema sets `timestamps: true`, so Mongoose adds an `updatedAt` `$set` to every `updateOne` of the bulk write and a `createdAt` on insert. Timestamps are not modelled, so the second build's equality covers only display, norm, initials and movieIds; in the real store it rewrites `updatedAt` on every key record.
- BuildSearchKeys.SatisfiedUpsertNoop: for the same reason, an already satisfied upsert still rewrites `updatedAt`; the no-op is stated over display, norm, initials and movieIds only.
- `key_type` and `key_jamo_full` are read by the service but never written by the index build or declared in the schema. The model reads them as "" when absent.
- `Promise.all`, cursors, `lean()`, logging, `try`/`catch` re-throws, and all database, HTTP and TMDB I/O are out of scope. Each script's database is a sequence given as input.
- The crawl loop, its 250 ms throttle, `fetchMovieDetails` and `saveMovieToDatabase` are network or database code and are not part of this model.
- CrawlMovies.TransformMovie: `audience` (`popularity || 0`) is a floating-point field and is left out. `release_date` is passed through as a string instead of a parsed `Date`.
- The Mongoose movie schema declares `director` as a string, while the transform builds an object. The schema is not part of this model.
- Validation inputs other than strings, `undefined` and `null` (numbers, objects) are not modelled for the validators. `sanitizeInput` takes any non-string as an opaque `Other` value.
- RemoveDuplicates.RemoveDuplicates: `_id` uniqueness is a precondition of the lemmas that depend on it, as MongoDB guarantees. `$group` output order is modelled as first-appearance order, which the server does not promise but no result depends on.
- RemoveDuplicates.SurvivorIsEarliest: with equal `created_at` values, the survivor is stated to be minimal, not which of the tied movies it is. `created_at` is an integer timestamp.
- UpdateRatings.Recount: ratings are integers, and the floating-point average is only bounded, not computed.
